/** The triangular masks `tril` and `triu` (BatchLinearAlgebra.cpp): a
    grid-stride kernel recovers each element's row and column from its flat
    index and keeps the element when `col - row` lies on the requested side of
    the diagonal offset `k`; the `_out` entry points resize and return early
    around it, and the in-place entry points pass the tensor as both result and
    source. */
module Triangular {
  import opened MixedRadix
  import opened Tensors
  import opened GridStride

  /** How a flat index becomes a (row, column) pair. `StrideOrder` is the rule
      the kernel is written with (lines 48-54), fed two strides; `LastTwoDims`
      reads the coordinates along the last two dimensions off the flat index of
      a row-major tensor. */
  datatype RowColRule =
    | StrideOrder(stride0: nat, stride1: nat)
    | LastTwoDims(rowSize: nat, rowStride: nat, colSize: nat, colStride: nat)

  /** The divisions of a rule are defined: both strides of `StrideOrder` are
      positive, and a dimension of `LastTwoDims` with more than one index has a
      positive stride. */
  predicate RuleOk(rule: RowColRule)
  {
    match rule
    case StrideOrder(stride0, stride1) => stride0 > 0 && stride1 > 0
    case LastTwoDims(rowSize, rowStride, colSize, colStride) =>
      (rowSize > 1 ==> rowStride > 0) && (colSize > 1 ==> colStride > 0)
  }

  /** Lines 48-54: the larger stride divides first. */
  function StrideOrderRowCol(idx: nat, stride0: nat, stride1: nat): (nat, nat)
    requires stride0 > 0 && stride1 > 0
  {
    if stride0 > stride1 then (idx / stride0, idx % stride0 / stride1)
    else ((idx % stride1) / stride0, idx / stride1)
  }

  /** The index along one dimension of extent `size` and stride `stride`. */
  function Coordinate(idx: nat, size: nat, stride: nat): nat
    requires size > 1 ==> stride > 0
  {
    if size <= 1 then 0 else (idx / stride) % size
  }

  function RowCol(rule: RowColRule, idx: nat): (nat, nat)
    requires RuleOk(rule)
  {
    match rule
    case StrideOrder(stride0, stride1) => StrideOrderRowCol(idx, stride0, stride1)
    case LastTwoDims(rowSize, rowStride, colSize, colStride) =>
      (Coordinate(idx, rowSize, rowStride), Coordinate(idx, colSize, colStride))
  }

  /** Line 56: the upper mask keeps `col - row >= k`, the lower one `col - row <= k`. */
  predicate Keep(upper: bool, row: int, col: int, k: int)
  {
    if upper then col - row >= k else col - row <= k
  }

  predicate KeepAt(rule: RowColRule, upper: bool, k: int, idx: nat)
    requires RuleOk(rule)
  {
    var (row, col) := RowCol(rule, idx);
    Keep(upper, row, col, k)
  }

  /** The reference result of the mask: each of the first `n` positions holds
      the source element when the mask keeps it and zero otherwise; every later
      position keeps what `result` held. */
  function Masked<T>(result: seq<T>, src: seq<T>, n: nat, rule: RowColRule, upper: bool, k: int, zero: T): (m: seq<T>)
    requires RuleOk(rule) && n <= |result| && n <= |src|
    ensures |m| == |result|
  {
    seq(|result|, i requires 0 <= i < |result| =>
      if i < n then (if KeepAt(rule, upper, k, i) then src[i] else zero) else result[i])
  }

  /** Index `i` has been handled once workers below `w` have finished and
      worker `w` has reached `t`. */
  predicate Visited(i: nat, workers: nat, w: nat, t: nat)
    requires workers > 0
  {
    Rem(i, workers) < w || (Rem(i, workers) == w && i < t)
  }

  /** The state of the kernel part-way: visited positions hold `target`, the
      others still hold `start`. */
  ghost predicate MaskedSoFar<T>(res: seq<T>, start: seq<T>, target: seq<T>, workers: nat, w: nat, t: nat)
    requires workers > 0
  {
    && |res| == |start| == |target|
    && forall i :: 0 <= i < |res| ==> res[i] == if Visited(i, workers, w, t) then target[i] else start[i]
  }

  /** One store of worker `w` at `t` moves it on to `t + workers`. */
  lemma MaskStep<T>(res: seq<T>, start: seq<T>, target: seq<T>, workers: nat, w: nat, t: nat)
    requires workers > 0 && t < |res| && Rem(t, workers) == w
    requires MaskedSoFar(res, start, target, workers, w, t)
    ensures MaskedSoFar(res[t := target[t]], start, target, workers, w, t + workers)
  {
    forall i | 0 <= i < |res| && Rem(i, workers) == w && t <= i < t + workers
      ensures i == t
    {
      SameRemainder(t, i, workers);
    }
  }

  /** Once worker `w` has passed the last position it may touch, the next
      worker starts; no index with remainder `w + 1` lies below `w + 1`. */
  lemma NextWorker<T>(res: seq<T>, start: seq<T>, target: seq<T>, n: nat, workers: nat, w: nat, t: nat)
    requires workers > 0 && n <= t
    requires forall i :: n <= i < |start| ==> i < |target| && target[i] == start[i]
    requires MaskedSoFar(res, start, target, workers, w, t)
    ensures MaskedSoFar(res, start, target, workers, w + 1, w + 1)
  {
    forall i | 0 <= i < |res| && Rem(i, workers) == w + 1
      ensures w + 1 <= i
    {
      RemAtMost(i, workers);
    }
  }

  /** Lines 44-57: worker `w` of `workers` visits `w, w + workers, ...` below
      `n`, recovers row and column by `rule`, and stores the source element or
      zero. With `aliased` the source is the result itself, as in the in-place
      entry points: each position is read just before the store to it. */
  method MaskKernel<T>(result: seq<T>, src: seq<T>, rule: RowColRule, upper: bool, k: int, n: nat,
                       aliased: bool, zero: T, workers: nat) returns (res: seq<T>)
    requires RuleOk(rule) && workers > 0 && n <= |result| && n <= |src|
    ensures res == Masked(result, if aliased then result else src, n, rule, upper, k, zero)
  {
    ghost var target := Masked(result, if aliased then result else src, n, rule, upper, k, zero);
    res := result;
    var w := 0;
    while w < workers
      invariant w <= workers
      invariant MaskedSoFar(res, result, target, workers, w, w)
    {
      var t := w;
      while t < n
        invariant w <= t && Rem(t, workers) == w
        invariant MaskedSoFar(res, result, target, workers, w, t)
      {
        assert !Visited(t, workers, w, t);
        var (row, col) := RowCol(rule, t);
        var value := if aliased then res[t] else src[t];
        var stored := if Keep(upper, row, col, k) then value else zero;
        assert stored == target[t];
        MaskStep(res, result, target, workers, w, t);
        res := res[t := stored];
        t := t + workers;
      }
      NextWorker(res, result, target, n, workers, w, t);
      w := w + 1;
    }
    forall i | 0 <= i < |res|
      ensures Visited(i, workers, w, w)
    {
      QuotRem(i, workers);
    }
  }

  // ---------------------------------------------------------------------------
  // The rule on a tensor

  /** Lines 85-104: the template hands the kernel the strides of the first two
      dimensions. */
  function AsWrittenRule<T>(self: Tensor<T>): RowColRule
    requires |self.strides| >= 2
  {
    StrideOrder(self.strides[0], self.strides[1])
  }

  /** The rule the mask needs: the matrix coordinates are the last two
      dimensions. */
  function CorrectedRule<T>(self: Tensor<T>): RowColRule
    requires |self.sizes| >= 2 && |self.strides| == |self.sizes|
  {
    var n := |self.sizes|;
    LastTwoDims(self.sizes[n - 2], self.strides[n - 2], self.sizes[n - 1], self.strides[n - 1])
  }

  /** The last two row-major digits of `i`. */
  lemma LastTwoDigits(sizes: seq<nat>, i: nat)
    requires |sizes| >= 2 && i < Product(sizes)
    ensures InnerPositive(sizes) && sizes[|sizes| - 1] > 0 && sizes[|sizes| - 2] > 0
    ensures Digits(sizes, i)[|sizes| - 1] == Rem(i, sizes[|sizes| - 1])
    ensures Digits(sizes, i)[|sizes| - 2] == Rem(Quot(i, sizes[|sizes| - 1]), sizes[|sizes| - 2])
  {
    var n := |sizes|;
    var prefix := sizes[..n - 1];
    var q := Quot(i, sizes[n - 1]);
    DigitsPrefix(sizes, i);
    QuotientBound(sizes, i);
    assert Digits(sizes, i)[n - 2] == Digits(prefix, q)[n - 2];
    if n == 2 {
      assert prefix == [sizes[0]];
    } else {
      DigitsPrefix(prefix, q);
    }
  }

  /** In a contiguous tensor the innermost stride is 1 and the next one is the
      innermost extent, wherever the extent exceeds 1. */
  lemma ContiguousLastStrides(sizes: seq<nat>, strides: seq<nat>)
    requires |sizes| >= 2 && |strides| == |sizes| && ContiguousFrom(sizes, strides, 1)
    requires sizes[|sizes| - 1] > 0
    ensures sizes[|sizes| - 1] > 1 ==> strides[|strides| - 1] == 1
    ensures sizes[|sizes| - 2] > 1 ==> strides[|strides| - 2] == sizes[|sizes| - 1]
  {
    var n := |sizes|;
    var inner := if sizes[n - 1] == 1 then 1 else sizes[n - 1];
    assert ContiguousFrom(sizes[..n - 1], strides[..n - 1], inner);
    assert sizes[..n - 1][n - 2] == sizes[n - 2] && strides[..n - 1][n - 2] == strides[n - 2];
  }

  /** The coordinate along a dimension of extent 1 is 0, and along any other
      dimension whose stride is the product `inner` of the extents inside it,
      it is the digit of `x` over those extents. */
  lemma CoordinateIsDigit(x: nat, size: nat, stride: nat, inner: nat)
    requires size > 0 && inner > 0 && (size > 1 ==> stride == inner)
    ensures Coordinate(x, size, stride) == Rem(Quot(x, inner), size)
  {
    QuotRemAreDivMod(x, inner);
    QuotRemAreDivMod(Quot(x, inner), size);
  }

  /** For a contiguous tensor the corrected rule yields the element's true
      coordinates along the last two dimensions. */
  lemma CorrectedRuleFindsCoordinates<T>(self: Tensor<T>, i: nat)
    requires |self.sizes| >= 2 && IsContiguous(self) && i < Numel(self)
    ensures InnerPositive(self.sizes) && RuleOk(CorrectedRule(self))
    ensures RowCol(CorrectedRule(self), i)
            == (Digits(self.sizes, i)[|self.sizes| - 2], Digits(self.sizes, i)[|self.sizes| - 1])
  {
    var n := |self.sizes|;
    LastTwoDigits(self.sizes, i);
    ContiguousLastStrides(self.sizes, self.strides);
    CoordinateIsDigit(i, self.sizes[n - 1], self.strides[n - 1], 1);
    QuotRemAreDivMod(i, 1);
    CoordinateIsDigit(i, self.sizes[n - 2], self.strides[n - 2], self.sizes[n - 1]);
  }

  /** What the corrected mask leaves at element `i` of a contiguous tensor: the
      element itself when its matrix coordinates are kept, zero otherwise. */
  lemma MaskedContiguous<T>(dst: seq<T>, self: Tensor<T>, upper: bool, k: int, zero: T, i: nat)
    requires |self.sizes| >= 2 && IsContiguous(self) && i < Numel(self)
    requires Numel(self) <= |self.data| && Numel(self) <= |dst|
    ensures InnerPositive(self.sizes) && RuleOk(CorrectedRule(self)) && StorageIndex(self, i) == i
    ensures var d := Digits(self.sizes, i);
            Masked(dst, self.data, Numel(self), CorrectedRule(self), upper, k, zero)[i]
            == if Keep(upper, d[|d| - 2], d[|d| - 1], k) then self.data[i] else zero
  {
    CorrectedRuleFindsCoordinates(self, i);
    ContiguousStorageIndex(self, i);
  }

  /** Where the written rule is right: a row-major matrix with more than one
      column, strides (C, 1). */
  lemma StrideOrderRowMajor(row: nat, col: nat, columns: nat)
    requires columns > 1 && col < columns
    ensures StrideOrderRowCol(row * columns + col, columns, 1) == (row, col)
  {
    DivModOfComposition(row, columns, col);
  }

  /** Where the written rule is right: a column-major matrix, strides (1, R). */
  lemma StrideOrderColumnMajor(row: nat, col: nat, rows: nat)
    requires row < rows
    ensures StrideOrderRowCol(col * rows + row, 1, rows) == (row, col)
  {
    DivModOfComposition(col, rows, row);
  }

  /** On a contiguous matrix (rank 2) with more than one row and more than one
      column the two rules agree: there the code as written finds the true row
      and column. */
  lemma RulesAgreeOnMatrices<T>(self: Tensor<T>, i: nat)
    requires |self.sizes| == 2 && IsContiguous(self) && i < Numel(self)
    requires self.sizes[0] > 1 && self.sizes[1] > 1
    ensures RuleOk(AsWrittenRule(self)) && RuleOk(CorrectedRule(self))
    ensures RowCol(AsWrittenRule(self), i) == RowCol(CorrectedRule(self), i)
  {
    var rows, columns := self.sizes[0], self.sizes[1];
    CorrectedRuleFindsCoordinates(self, i);
    ContiguousLastStrides(self.sizes, self.strides);
    LastTwoDigits(self.sizes, i);
    assert self.sizes[..1] == [rows] && [rows][..0] == [];
    assert Numel(self) == rows * columns by {
      ProductSnoc(self.sizes);
      ProductSnoc([rows]);
    }
    QuotBelow(i, rows, columns);
    QuotRemAreDivMod(i, columns);
    QuotRemAreDivMod(Quot(i, columns), rows);
  }

  /** A contiguous 2 x 1 matrix has strides (1, 1), which the written rule reads
      as column-major: `tril(0)` zeroes the element at (1, 0), which lies below
      the diagonal and must be kept. The corrected rule keeps it. */
  lemma ColumnVectorMisread()
    ensures var t := Tensor(true, [2, 1], ContiguousStrides([2, 1]), [5, 7], 0);
            && t.strides == [1, 1] && Numel(t) == 2
            && Digits(t.sizes, 1) == [1, 0] && Keep(false, 1, 0, 0)
            && Masked(t.data, t.data, 2, AsWrittenRule(t), false, 0, 0) == [5, 0]
            && Masked(t.data, t.data, 2, CorrectedRule(t), false, 0, 0) == [5, 7]
  {
    var t := Tensor(true, [2, 1], ContiguousStrides([2, 1]), [5, 7], 0);
    assert ContiguousStridesFrom([2], 1) == [1];
    assert Numel(t) == 2 by {
      assert t.sizes[..1] == [2];
    }
    assert Digits(t.sizes, 1) == [1, 0] by {
      assert t.sizes[..1] == [2];
    }
  }

  /** A contiguous batch of two 2 x 2 matrices has strides (4, 2, 1); the
      written rule divides by the batch stride and reads element (0, 0, 1) as
      matrix position (0, 0), so `triu(1)` zeroes it although it lies on the
      first superdiagonal. The corrected rule keeps it. */
  lemma BatchedMatrixMisread()
    ensures var t := Tensor(true, [2, 2, 2], ContiguousStrides([2, 2, 2]), [1, 2, 3, 4, 5, 6, 7, 8], 0);
            && t.strides == [4, 2, 1] && Numel(t) == 8
            && Digits(t.sizes, 1) == [0, 0, 1] && Keep(true, 0, 1, 1)
            && Masked(t.data, t.data, 8, AsWrittenRule(t), true, 1, 0)[1] == 0
            && Masked(t.data, t.data, 8, CorrectedRule(t), true, 1, 0)[1] == 2
  {
    var t := Tensor(true, [2, 2, 2], ContiguousStrides([2, 2, 2]), [1, 2, 3, 4, 5, 6, 7, 8], 0);
    assert [2, 2, 2][..2] == [2, 2] && [2, 2][..1] == [2];
    assert ContiguousStridesFrom([2], 4) == [4];
    assert ContiguousStridesFrom([2, 2], 2) == [4, 2];
    assert Numel(t) == 8;
    assert Digits(t.sizes, 1) == [0, 0, 1];
  }

  /** `tril(k)` and `triu(k + 1)` split every position between them: exactly
      one of the two keeps the source element and the other stores zero. */
  lemma TrilTriuComplement<T>(result: seq<T>, src: seq<T>, n: nat, rule: RowColRule, k: int, zero: T, i: nat)
    requires RuleOk(rule) && n <= |result| && n <= |src| && i < n
    ensures KeepAt(rule, false, k, i) <==> !KeepAt(rule, true, k + 1, i)
    ensures var lower := Masked(result, src, n, rule, false, k, zero);
            var upper := Masked(result, src, n, rule, true, k + 1, zero);
            (lower[i] == src[i] && upper[i] == zero) || (lower[i] == zero && upper[i] == src[i])
  {
  }

  // ---------------------------------------------------------------------------
  // Entry points

  /** Lines 74-108: mask the first `numel(self)` positions of `result`'s
      storage from `self`'s storage. The 32-bit and 64-bit index types compute
      the same values. */
  method TriuTrilTemplate<T>(result: Tensor<T>, self: Tensor<T>, rule: RowColRule, upper: bool, k: int,
                             aliased: bool, zero: T, workers: nat) returns (r: Tensor<T>)
    requires RuleOk(rule) && workers > 0
    requires Numel(self) <= |result.data| && Numel(self) <= |self.data|
    requires aliased ==> result == self
    ensures r == result.(data := r.data)
    ensures r.data == Masked(result.data, self.data, Numel(self), rule, upper, k, zero)
  {
    var data := MaskKernel(result.data, self.data, rule, upper, k, Numel(self), aliased, zero, workers);
    return result.(data := data);
  }

  /** `result` as the `_out` entry points find it after the resize of lines
      112-114 / 127-129. */
  function Prepared<T>(result: Tensor<T>, self: Tensor<T>, fill: T): Tensor<T>
  {
    if result.sizes != self.sizes then Resize(result, self.sizes, fill) else result
  }

  /** `tril_dpcpp_out` / `triu_dpcpp_out` (lines 111-134): resize `result` to
      `self`'s shape when the shapes differ, return it without a store when
      `self` is empty, and mask otherwise. `rule` is how the kernel finds a
      row and column: `AsWrittenRule(self)` is the code as written,
      `CorrectedRule(self)` the intended one. `aliased` says `result` is `self`
      (the in-place entry points); `fill` stands for the memory a resize
      allocates. */
  method TriuTrilOut<T>(result: Tensor<T>, self: Tensor<T>, rule: RowColRule, k: int, upper: bool, aliased: bool,
                        zero: T, fill: T, workers: nat) returns (r: Tensor<T>)
    requires |self.sizes| >= 2 && |self.strides| == |self.sizes| && RuleOk(rule)
    requires workers > 0 && Numel(self) <= |self.data|
    requires result.sizes == self.sizes ==> Numel(self) <= |result.data|
    requires aliased ==> result == self
    ensures r.sizes == self.sizes
    ensures r == Prepared(result, self, fill).(data := r.data)
    ensures |r.data| == |Prepared(result, self, fill).data|
    ensures result.sizes != self.sizes ==> r.strides == ContiguousStrides(self.sizes)
    ensures Numel(self) == 0 ==> r == Prepared(result, self, fill)
    ensures Numel(self) > 0 ==>
              r.data == Masked(Prepared(result, self, fill).data, self.data, Numel(self), rule, upper, k, zero)
  {
    r := result;
    if result.sizes != self.sizes {
      r := Resize(result, self.sizes, fill);
    }
    if Numel(self) == 0 {
      return r;
    }
    r := TriuTrilTemplate(r, self, rule, upper, k, aliased, zero, workers);
  }

  /** `tril_dpcpp_` / `tril_` (lines 122-124, 244-246): the out-of-place mask
      with `self` as its own result; reading each position just before storing
      to it gives what masking into a separate copy gives. */
  method TrilInPlace<T>(self: Tensor<T>, rule: RowColRule, k: int, zero: T, workers: nat) returns (r: Tensor<T>)
    requires |self.sizes| >= 2 && |self.strides| == |self.sizes| && RuleOk(rule)
    requires workers > 0 && Numel(self) <= |self.data|
    ensures r == self.(data := r.data)
    ensures r.data == Masked(self.data, self.data, Numel(self), rule, false, k, zero)
  {
    r := TriuTrilOut(self, self, rule, k, false, true, zero, zero, workers);
  }

  /** `triu_dpcpp_` / `triu_` (lines 136-138, 248-250). */
  method TriuInPlace<T>(self: Tensor<T>, rule: RowColRule, k: int, zero: T, workers: nat) returns (r: Tensor<T>)
    requires |self.sizes| >= 2 && |self.strides| == |self.sizes| && RuleOk(rule)
    requires workers > 0 && Numel(self) <= |self.data|
    ensures r == self.(data := r.data)
    ensures r.data == Masked(self.data, self.data, Numel(self), rule, true, k, zero)
  {
    r := TriuTrilOut(self, self, rule, k, true, true, zero, zero, workers);
  }
}
