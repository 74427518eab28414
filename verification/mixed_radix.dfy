/** Row-major mixed-radix arithmetic: element counts of shapes, the digits of a
    flat index over a shape, the inverse composition, strided dot products and
    contiguous strides. Every index computation of the kernels reduces to these.

    Quotient and remainder are defined here by repeated subtraction (`Quot`,
    `Rem`) and related to the machine operators `/` and `%` once, in
    `QuotRemAreDivMod`; the digit arithmetic is stated in terms of them. */
module MixedRadix {

  /** Number of elements of a shape: the product of its extents. */
  function Product(s: seq<nat>): (r: nat)
    ensures r > 0 <==> forall i :: 0 <= i < |s| ==> s[i] > 0
  {
    if |s| == 0 then 1 else Product(s[..|s| - 1]) * s[|s| - 1]
  }

  /** The quotient of `x` by a positive `q`. */
  function Quot(x: nat, q: nat): nat
    requires q > 0
    decreases x
  {
    if x < q then 0 else Quot(x - q, q) + 1
  }

  /** The remainder of `x` by a positive `q`. */
  function Rem(x: nat, q: nat): nat
    requires q > 0
    decreases x
  {
    if x < q then x else Rem(x - q, q)
  }

  /** Every radix except the outermost is positive; the outermost digit is unbounded. */
  predicate InnerPositive(r: seq<nat>)
  {
    forall i :: 1 <= i < |r| ==> r[i] > 0
  }

  /** Each digit below the outermost is smaller than its radix. */
  predicate InRange(r: seq<nat>, c: seq<nat>)
  {
    |c| == |r| && forall i :: 1 <= i < |r| ==> c[i] < r[i]
  }

  /** Every digit is smaller than its radix: a coordinate inside the shape. */
  predicate InBounds(r: seq<nat>, c: seq<nat>)
  {
    |c| == |r| && forall i :: 0 <= i < |r| ==> c[i] < r[i]
  }

  /** The row-major digits of `x` over the radices `r`, outermost first. */
  function Digits(r: seq<nat>, x: nat): (d: seq<nat>)
    requires InnerPositive(r)
    ensures |d| == |r|
  {
    if |r| == 0 then []
    else if |r| == 1 then [x]
    else Digits(r[..|r| - 1], Quot(x, r[|r| - 1])) + [Rem(x, r[|r| - 1])]
  }

  /** The flat row-major index of coordinate `c` over the radices `r`. */
  function Linearize(r: seq<nat>, c: seq<nat>): nat
    requires |c| == |r|
  {
    if |r| == 0 then 0
    else if |r| == 1 then c[0]
    else Linearize(r[..|r| - 1], c[..|c| - 1]) * r[|r| - 1] + c[|c| - 1]
  }

  /** The strided offset of coordinate `c`: the sum of c[i] * s[i]. */
  function Dot(c: seq<nat>, s: seq<nat>): nat
    requires |c| == |s|
  {
    if |c| == 0 then 0 else Dot(c[..|c| - 1], s[..|s| - 1]) + c[|c| - 1] * s[|s| - 1]
  }

  /** The framework's contiguity test, innermost dimension first: a dimension of
      extent 1 may have any stride; every other stride equals the product of the
      extents inside it (`expected`). */
  predicate ContiguousFrom(sizes: seq<nat>, strides: seq<nat>, expected: nat)
    requires |strides| == |sizes|
  {
    if |sizes| == 0 then true
    else if sizes[|sizes| - 1] == 1 then
      ContiguousFrom(sizes[..|sizes| - 1], strides[..|strides| - 1], expected)
    else
      strides[|strides| - 1] == expected
      && ContiguousFrom(sizes[..|sizes| - 1], strides[..|strides| - 1], expected * sizes[|sizes| - 1])
  }

  /** One factor of a contiguous stride: an empty extent counts as 1. */
  function Extent(n: nat): nat
  {
    if n == 0 then 1 else n
  }

  /** The strides the framework gives a freshly allocated contiguous tensor whose
      innermost stride is `inner`. */
  function ContiguousStridesFrom(sizes: seq<nat>, inner: nat): (s: seq<nat>)
    ensures |s| == |sizes|
  {
    if |sizes| == 0 then []
    else ContiguousStridesFrom(sizes[..|sizes| - 1], inner * Extent(sizes[|sizes| - 1])) + [inner]
  }

  function ContiguousStrides(sizes: seq<nat>): (s: seq<nat>)
    ensures |s| == |sizes|
  {
    ContiguousStridesFrom(sizes, 1)
  }

  // ---------------------------------------------------------------------------
  // Arithmetic

  lemma MulMonotone(a: nat, b: nat, q: nat)
    ensures a <= b ==> a * q <= b * q
  {
  }

  /** A smaller multiplier leaves room for a whole extra `q`. */
  lemma MulGap(a: nat, b: nat, q: nat)
    ensures a < b ==> a * q + q <= b * q
  {
    MulMonotone(a + 1, b, q);
    assert (a + 1) * q == a * q + q;
  }

  /** Quotient and remainder recompose `x`, and the remainder is below `q`. */
  lemma {:induction false} QuotRem(x: nat, q: nat)
    requires q > 0
    ensures Quot(x, q) * q + Rem(x, q) == x && Rem(x, q) < q
    decreases x
  {
    if x >= q {
      QuotRem(x - q, q);
      assert (Quot(x - q, q) + 1) * q == Quot(x - q, q) * q + q;
    }
  }

  /** A quotient and a remainder below `q` are determined by what they compose to. */
  lemma CompositionUnique(a1: nat, b1: nat, a2: nat, b2: nat, q: nat)
    requires b1 < q && b2 < q && a1 * q + b1 == a2 * q + b2
    ensures a1 == a2 && b1 == b2
  {
    MulGap(a1, a2, q);
    MulGap(a2, a1, q);
  }

  /** Decomposing a composition gives its parts back. */
  lemma QuotRemOfComposition(a: nat, q: nat, b: nat)
    requires b < q
    ensures Quot(a * q + b, q) == a && Rem(a * q + b, q) == b
  {
    QuotRem(a * q + b, q);
    CompositionUnique(Quot(a * q + b, q), Rem(a * q + b, q), a, b, q);
  }

  /** The subtraction quotient and remainder are the machine's Euclidean ones. */
  lemma QuotRemAreDivMod(x: nat, q: nat)
    requires q > 0
    ensures Quot(x, q) == x / q && Rem(x, q) == x % q
  {
    QuotRem(x, q);
    CompositionUnique(Quot(x, q), Rem(x, q), x / q, x % q, q);
  }

  /** Uniqueness of Euclidean division, for the machine operators. */
  lemma DivModOfComposition(a: nat, q: nat, b: nat)
    requires b < q
    ensures (a * q + b) / q == a
    ensures (a * q + b) % q == b
  {
    QuotRemOfComposition(a, q, b);
    QuotRemAreDivMod(a * q + b, q);
  }

  /** A quotient and remainder below `p` and `q` compose to less than `p * q`. */
  lemma CompositionBound(a: nat, p: nat, q: nat, b: nat)
    requires a < p && b < q
    ensures a * q + b < p * q
  {
    MulGap(a, p, q);
  }

  /** The quotient of an index below `p * q` is below `p`. */
  lemma QuotBelow(x: nat, p: nat, q: nat)
    requires q > 0 && x < p * q
    ensures Quot(x, q) < p
  {
    QuotRem(x, q);
    MulMonotone(p, Quot(x, q), q);
  }

  // ---------------------------------------------------------------------------
  // Digits and composition

  /** The product of a shape with at least one extent, split at the innermost one. */
  lemma ProductSnoc(r: seq<nat>)
    requires |r| >= 1
    ensures Product(r) == Product(r[..|r| - 1]) * r[|r| - 1]
  {
  }

  /** The quotient of an index of shape `r` by the innermost extent is an index
      of the outer shape. */
  lemma QuotientBound(r: seq<nat>, x: nat)
    requires |r| >= 1 && r[|r| - 1] > 0 && x < Product(r)
    ensures Quot(x, r[|r| - 1]) < Product(r[..|r| - 1])
  {
    ProductSnoc(r);
    QuotBelow(x, Product(r[..|r| - 1]), r[|r| - 1]);
  }

  /** The digits over at least two radices end in the innermost remainder. */
  lemma DigitsSnoc(r: seq<nat>, x: nat)
    requires |r| >= 2 && InnerPositive(r)
    ensures Digits(r, x) == Digits(r[..|r| - 1], Quot(x, r[|r| - 1])) + [Rem(x, r[|r| - 1])]
  {
  }

  /** The digits of `x` outside the innermost one are the digits of its quotient. */
  lemma DigitsPrefix(r: seq<nat>, x: nat)
    requires |r| >= 2 && InnerPositive(r)
    ensures Digits(r, x)[..|r| - 1] == Digits(r[..|r| - 1], Quot(x, r[|r| - 1]))
    ensures Digits(r, x)[|r| - 1] == Rem(x, r[|r| - 1])
  {
    DigitsSnoc(r, x);
  }

  /** Composing the digits of `x` gives `x` back. */
  lemma {:induction false} LinearizeDigits(r: seq<nat>, x: nat)
    requires |r| >= 1 && InnerPositive(r)
    ensures Linearize(r, Digits(r, x)) == x
  {
    var n := |r|;
    if n > 1 {
      var q := r[n - 1];
      DigitsPrefix(r, x);
      LinearizeDigits(r[..n - 1], Quot(x, q));
      QuotRem(x, q);
    }
  }

  /** Digits below the outermost are below their radix; all digits are when `x`
      is an index into the shape. */
  lemma {:induction false} DigitsInRange(r: seq<nat>, x: nat)
    requires InnerPositive(r)
    ensures InRange(r, Digits(r, x))
    ensures x < Product(r) ==> InBounds(r, Digits(r, x))
  {
    var n := |r|;
    if n == 1 {
      ProductSnoc(r);
    } else if n > 1 {
      var q := r[n - 1];
      DigitsInRange(r[..n - 1], Quot(x, q));
      DigitsPrefix(r, x);
      QuotRem(x, q);
      if x < Product(r) {
        QuotientBound(r, x);
      }
    }
  }

  /** Decomposing a composed in-range coordinate gives the coordinate back. */
  lemma {:induction false} DigitsLinearize(r: seq<nat>, c: seq<nat>)
    requires InnerPositive(r) && InRange(r, c)
    ensures Digits(r, Linearize(r, c)) == c
  {
    var n := |r|;
    if n > 1 {
      var q := r[n - 1];
      var lead := Linearize(r[..n - 1], c[..n - 1]);
      QuotRemOfComposition(lead, q, c[n - 1]);
      DigitsLinearize(r[..n - 1], c[..n - 1]);
      DigitsSnoc(r, Linearize(r, c));
      assert c == c[..n - 1] + [c[n - 1]];
    }
  }

  /** A coordinate inside the shape composes to an index of the shape. */
  lemma {:induction false} LinearizeBound(r: seq<nat>, c: seq<nat>)
    requires InBounds(r, c)
    ensures Linearize(r, c) < Product(r)
  {
    var n := |r|;
    if n > 1 {
      LinearizeBound(r[..n - 1], c[..n - 1]);
      CompositionBound(Linearize(r[..n - 1], c[..n - 1]), Product(r[..n - 1]), r[n - 1], c[n - 1]);
    }
  }

  /** Two coordinates inside a shape that compose to the same index are equal. */
  lemma LinearizeInjective(r: seq<nat>, c1: seq<nat>, c2: seq<nat>)
    requires InBounds(r, c1) && InBounds(r, c2)
    requires Linearize(r, c1) == Linearize(r, c2)
    ensures c1 == c2
  {
    DigitsLinearize(r, c1);
    DigitsLinearize(r, c2);
  }

  // ---------------------------------------------------------------------------
  // Strided offsets

  /** The strided offset of a coordinate with one more innermost digit. */
  lemma DotSnoc(c: seq<nat>, m: nat, s: seq<nat>)
    requires |c| + 1 == |s|
    ensures Dot(c + [m], s) == Dot(c, s[..|s| - 1]) + m * s[|s| - 1]
  {
    assert (c + [m])[..|c|] == c;
  }

  /** The strided offset of the digits of `x`: the offset of the quotient's
      digits over the outer radices plus the innermost digit times its stride. */
  lemma DotDigits(r: seq<nat>, s: seq<nat>, x: nat)
    requires |r| == |s| >= 2 && InnerPositive(r)
    ensures Dot(Digits(r, x), s)
         == Dot(Digits(r[..|r| - 1], Quot(x, r[|r| - 1])), s[..|s| - 1]) + Rem(x, r[|r| - 1]) * s[|s| - 1]
  {
    DigitsSnoc(r, x);
    DotSnoc(Digits(r[..|r| - 1], Quot(x, r[|r| - 1])), Rem(x, r[|r| - 1]), s);
  }

  /** Moving one coordinate by `o` moves the strided offset by `o` strides. */
  lemma {:induction false} DotUpdate(c: seq<nat>, s: seq<nat>, d: nat, o: nat)
    requires |c| == |s| && d < |c|
    ensures Dot(c[d := c[d] + o], s) == Dot(c, s) + o * s[d]
  {
    var n := |c|;
    var c' := c[d := c[d] + o];
    assert c'[..n - 1] == if d < n - 1 then c[..n - 1][d := c[d] + o] else c[..n - 1];
    if d < n - 1 {
      DotUpdate(c[..n - 1], s[..n - 1], d, o);
    }
  }

  /** Under contiguous strides the strided offset of the digits of `t` is `t`
      times the innermost stride. */
  lemma {:induction false} ContiguousDot(sizes: seq<nat>, strides: seq<nat>, expected: nat, t: nat)
    requires |strides| == |sizes|
    requires ContiguousFrom(sizes, strides, expected)
    requires t < Product(sizes)
    ensures Dot(Digits(sizes, t), strides) == expected * t
  {
    var n := |sizes|;
    if n == 1 {
      ContiguousDotSingle(sizes, strides, expected, t);
    } else if n > 1 {
      var q := sizes[n - 1];
      QuotientBound(sizes, t);
      var inner := if q == 1 then expected else expected * q;
      ContiguousDot(sizes[..n - 1], strides[..n - 1], inner, Quot(t, q));
      ContiguousDotStep(sizes, strides, expected, t);
    }
  }

  lemma ContiguousDotSingle(sizes: seq<nat>, strides: seq<nat>, expected: nat, t: nat)
    requires |strides| == |sizes| == 1
    requires ContiguousFrom(sizes, strides, expected)
    requires t < Product(sizes)
    ensures Dot(Digits(sizes, t), strides) == expected * t
  {
    ProductSnoc(sizes);
    assert Digits(sizes, t) == [t];
    assert Dot([t], strides) == Dot([], []) + t * strides[0];
  }

  /** The inductive step of `ContiguousDot`, given its result for the outer dimensions. */
  lemma ContiguousDotStep(sizes: seq<nat>, strides: seq<nat>, expected: nat, t: nat)
    requires |strides| == |sizes| >= 2
    requires ContiguousFrom(sizes, strides, expected)
    requires sizes[|sizes| - 1] > 0 && InnerPositive(sizes)
    requires Dot(Digits(sizes[..|sizes| - 1], Quot(t, sizes[|sizes| - 1])), strides[..|strides| - 1])
          == (if sizes[|sizes| - 1] == 1 then expected else expected * sizes[|sizes| - 1]) * Quot(t, sizes[|sizes| - 1])
    ensures Dot(Digits(sizes, t), strides) == expected * t
  {
    var n := |sizes|;
    DotDigits(sizes, strides, t);
    ContiguousStep(sizes[n - 1], expected, t, strides[n - 1]);
  }

  lemma ContiguousStep(q: nat, expected: nat, t: nat, stride: nat)
    requires q > 0
    requires q != 1 ==> stride == expected
    ensures (if q == 1 then expected else expected * q) * Quot(t, q) + Rem(t, q) * stride == expected * t
  {
    QuotRem(t, q);
    var a, b := Quot(t, q), Rem(t, q);
    if q == 1 {
      assert b == 0;
    } else {
      assert expected * q * a + b * expected == expected * (a * q + b);
    }
  }

  /** Under contiguous strides the strided offset of a coordinate inside the shape
      is its row-major index. */
  lemma DotIsLinearize(sizes: seq<nat>, strides: seq<nat>, c: seq<nat>)
    requires |strides| == |sizes|
    requires ContiguousFrom(sizes, strides, 1)
    requires InBounds(sizes, c)
    ensures Dot(c, strides) == Linearize(sizes, c)
  {
    DigitsLinearize(sizes, c);
    LinearizeBound(sizes, c);
    ContiguousDot(sizes, strides, 1, Linearize(sizes, c));
  }

  /** Freshly allocated contiguous strides pass the contiguity test. */
  lemma {:induction false} ContiguousStridesAreContiguous(sizes: seq<nat>, inner: nat)
    requires Product(sizes) > 0
    ensures ContiguousFrom(sizes, ContiguousStridesFrom(sizes, inner), inner)
  {
    var n := |sizes|;
    if n > 0 {
      var s := ContiguousStridesFrom(sizes, inner);
      assert s[..n - 1] == ContiguousStridesFrom(sizes[..n - 1], inner * Extent(sizes[n - 1]));
      ProductSnoc(sizes);
      ContiguousStridesAreContiguous(sizes[..n - 1], inner * Extent(sizes[n - 1]));
    }
  }
}
