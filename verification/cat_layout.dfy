/** What concatenation means, independently of how it is executed: which inputs
    take part, where each input's slice starts along the concat dimension, and
    the output coordinate every input element must land on. Both execution paths
    of `cat` (the fused batched kernel and the per-input fallback) are proved
    against the predicate `Placed` defined here. */
module CatLayout {
  import opened MixedRadix
  import opened Tensors

  /** `cat` ignores an input that is undefined and one-dimensional. */
  predicate ShouldSkip<T>(t: Tensor<T>)
  {
    !t.defined && |t.sizes| == 1
  }

  /** Two shapes of equal rank that agree on every dimension except `dim`. */
  predicate SameShapeExcept(a: seq<nat>, b: seq<nat>, dim: int)
  {
    |a| == |b| && forall d :: 0 <= d < |a| && d != dim ==> a[d] == b[d]
  }

  /** The extent an input contributes along the concat dimension. */
  function Contribution<T>(t: Tensor<T>, dim: nat): nat
  {
    if ShouldSkip(t) || dim >= |t.sizes| then 0 else t.sizes[dim]
  }

  /** Where input `j`'s slice begins along the concat dimension: the summed
      contributions of the inputs before it. */
  function SliceStart<T>(inputs: seq<Tensor<T>>, dim: nat, j: nat): nat
    requires j <= |inputs|
  {
    if j == 0 then 0 else SliceStart(inputs, dim, j - 1) + Contribution(inputs[j - 1], dim)
  }

  /** An input `cat` does not skip, of rank `rank`, having dimension `dim`. */
  predicate Shaped<T>(t: Tensor<T>, dim: nat, rank: nat)
  {
    !ShouldSkip(t) && |t.sizes| == rank && dim < rank
  }

  /** An input whose elements `cat` copies into an output of rank `rank`. */
  predicate Participates<T>(t: Tensor<T>, dim: nat, rank: nat)
  {
    Shaped(t, dim, rank) && WellFormed(t)
  }

  /** The output coordinate of the `i`-th element (row-major) of input `j`: its
      own coordinate, moved along `dim` by the start of its slice. */
  function Placement<T>(inputs: seq<Tensor<T>>, dim: nat, j: nat, i: nat): (c: seq<nat>)
    requires j < |inputs| && dim < |inputs[j].sizes| && i < Numel(inputs[j])
    ensures |c| == |inputs[j].sizes|
  {
    var d := Digits(inputs[j].sizes, i);
    d[dim := d[dim] + SliceStart(inputs, dim, j)]
  }

  /** The storage position of that coordinate under the output's strides. */
  function PlaceOffset<T>(inputs: seq<Tensor<T>>, dim: nat, outStrides: seq<nat>, j: nat, i: nat): nat
    requires j < |inputs| && dim < |inputs[j].sizes| == |outStrides| && i < Numel(inputs[j])
  {
    Dot(Placement(inputs, dim, j, i), outStrides)
  }

  /** Some element of one of the first `count` participating inputs is placed at
      position `p`. */
  ghost predicate IsPlaced<T>(inputs: seq<Tensor<T>>, dim: nat, outStrides: seq<nat>, count: nat, p: nat)
  {
    exists j: nat, i: nat :: j < count && j < |inputs| && Participates(inputs[j], dim, |outStrides|) && i < Numel(inputs[j])
      && PlaceOffset(inputs, dim, outStrides, j, i) == p
  }

  /** `res` is the storage `output` once the first `count` inputs are
      concatenated: every element of those that participate stored at its
      placement, every other position as it was. With `count == |inputs|` this
      is the meaning of `cat`. */
  ghost predicate Placed<T>(res: seq<T>, output: seq<T>, inputs: seq<Tensor<T>>, dim: nat, outStrides: seq<nat>, count: nat)
  {
    && |res| == |output|
    && (forall j: nat, i: nat :: j < count && j < |inputs| && Participates(inputs[j], dim, |outStrides|) && i < Numel(inputs[j]) ==>
          PlaceOffset(inputs, dim, outStrides, j, i) < |res|
          && res[PlaceOffset(inputs, dim, outStrides, j, i)] == ElementAt(inputs[j], i))
    && (forall p :: 0 <= p < |output| && !IsPlaced(inputs, dim, outStrides, count, p) ==> res[p] == output[p])
  }

  /** `res` is `prev` with the inputs `lo .. hi - 1` copied: each of their
      elements at its placement, every other position unchanged. */
  ghost predicate CopiedRange<T>(res: seq<T>, prev: seq<T>, inputs: seq<Tensor<T>>, dim: nat, outStrides: seq<nat>, lo: nat, hi: nat)
  {
    && |res| == |prev|
    && (forall j: nat, i: nat :: lo <= j < hi && j < |inputs| && Participates(inputs[j], dim, |outStrides|) && i < Numel(inputs[j]) ==>
          PlaceOffset(inputs, dim, outStrides, j, i) < |res|
          && res[PlaceOffset(inputs, dim, outStrides, j, i)] == ElementAt(inputs[j], i))
    && (forall p :: 0 <= p < |prev|
          && (forall j: nat, i: nat :: lo <= j < hi && j < |inputs| && Participates(inputs[j], dim, |outStrides|) && i < Numel(inputs[j]) ==>
                PlaceOffset(inputs, dim, outStrides, j, i) != p)
          ==> res[p] == prev[p])
  }

  /** The shape facts planning establishes: every non-skipped input has the
      output's shape except along `dim`, the output's extent along `dim` is the sum
      of the contributions, and the output is laid out contiguously. */
  predicate Fits<T>(inputs: seq<Tensor<T>>, dim: nat, outSizes: seq<nat>, outStrides: seq<nat>)
  {
    && dim < |outSizes| == |outStrides|
    && (forall j :: 0 <= j < |inputs| && !ShouldSkip(inputs[j]) ==> SameShapeExcept(inputs[j].sizes, outSizes, dim))
    && outSizes[dim] == SliceStart(inputs, dim, |inputs|)
    && (Product(outSizes) == 0 || ContiguousFrom(outSizes, outStrides, 1))
  }

  /** Slices start in order: a later input's slice never starts before an earlier one ends. */
  lemma {:induction false} SliceStartMonotone<T>(inputs: seq<Tensor<T>>, dim: nat, j: nat, k: nat)
    requires j <= k <= |inputs|
    ensures SliceStart(inputs, dim, j) <= SliceStart(inputs, dim, k)
    decreases k - j
  {
    if j < k {
      SliceStartMonotone(inputs, dim, j, k - 1);
    }
  }

  /** Every placement is a coordinate inside the output, and its storage position
      is its row-major index there. */
  lemma PlacementInside<T>(inputs: seq<Tensor<T>>, dim: nat, outSizes: seq<nat>, outStrides: seq<nat>, j: nat, i: nat)
    requires Fits(inputs, dim, outSizes, outStrides)
    requires j < |inputs| && Shaped(inputs[j], dim, |outStrides|) && i < Numel(inputs[j])
    ensures InBounds(outSizes, Placement(inputs, dim, j, i))
    ensures PlaceOffset(inputs, dim, outStrides, j, i) == Linearize(outSizes, Placement(inputs, dim, j, i))
    ensures PlaceOffset(inputs, dim, outStrides, j, i) < Product(outSizes)
  {
    var sizes := inputs[j].sizes;
    var d := Digits(sizes, i);
    var c := Placement(inputs, dim, j, i);
    DigitsInRange(sizes, i);
    SliceStartMonotone(inputs, dim, j + 1, |inputs|);
    assert SliceStart(inputs, dim, j + 1) == SliceStart(inputs, dim, j) + sizes[dim];
    forall k | 0 <= k < |outSizes|
      ensures c[k] < outSizes[k]
    {
      if k != dim {
        assert c[k] == d[k] < sizes[k] == outSizes[k];
      }
    }
    assert Product(outSizes) > 0;
    DotIsLinearize(outSizes, outStrides, c);
    LinearizeBound(outSizes, c);
  }

  /** Distinct elements of participating inputs are placed at distinct positions. */
  lemma PlacementInjective<T>(inputs: seq<Tensor<T>>, dim: nat, outSizes: seq<nat>, outStrides: seq<nat>,
                              j1: nat, i1: nat, j2: nat, i2: nat)
    requires Fits(inputs, dim, outSizes, outStrides)
    requires j1 < |inputs| && Shaped(inputs[j1], dim, |outStrides|) && i1 < Numel(inputs[j1])
    requires j2 < |inputs| && Shaped(inputs[j2], dim, |outStrides|) && i2 < Numel(inputs[j2])
    requires PlaceOffset(inputs, dim, outStrides, j1, i1) == PlaceOffset(inputs, dim, outStrides, j2, i2)
    ensures j1 == j2 && i1 == i2
  {
    PlacementInside(inputs, dim, outSizes, outStrides, j1, i1);
    PlacementInside(inputs, dim, outSizes, outStrides, j2, i2);
    LinearizeInjective(outSizes, Placement(inputs, dim, j1, i1), Placement(inputs, dim, j2, i2));
    PlacementDetermines(inputs, dim, j1, i1, j2, i2);
  }

  /** An output coordinate determines the input and the element placed there. */
  lemma PlacementDetermines<T>(inputs: seq<Tensor<T>>, dim: nat, j1: nat, i1: nat, j2: nat, i2: nat)
    requires j1 < |inputs| && !ShouldSkip(inputs[j1]) && dim < |inputs[j1].sizes| && i1 < Numel(inputs[j1])
    requires j2 < |inputs| && !ShouldSkip(inputs[j2]) && dim < |inputs[j2].sizes| && i2 < Numel(inputs[j2])
    requires |inputs[j1].sizes| == |inputs[j2].sizes|
    requires Placement(inputs, dim, j1, i1) == Placement(inputs, dim, j2, i2)
    ensures j1 == j2 && i1 == i2
  {
    var c := Placement(inputs, dim, j1, i1);
    var d1 := Digits(inputs[j1].sizes, i1);
    var d2 := Digits(inputs[j2].sizes, i2);
    DigitsInRange(inputs[j1].sizes, i1);
    DigitsInRange(inputs[j2].sizes, i2);
    assert c[dim] == d1[dim] + SliceStart(inputs, dim, j1) == d2[dim] + SliceStart(inputs, dim, j2);
    if j1 < j2 {
      SliceOrder(inputs, dim, j1, j2, d1[dim], d2[dim]);
    } else if j2 < j1 {
      SliceOrder(inputs, dim, j2, j1, d2[dim], d1[dim]);
    } else {
      assert d1 == c[dim := c[dim] - SliceStart(inputs, dim, j1)] == d2;
      LinearizeDigits(inputs[j1].sizes, i1);
      LinearizeDigits(inputs[j2].sizes, i2);
    }
  }

  /** A position inside an earlier input's slice lies before every position of a
      later input's slice. */
  lemma SliceOrder<T>(inputs: seq<Tensor<T>>, dim: nat, j1: nat, j2: nat, a1: nat, a2: nat)
    requires j1 < j2 <= |inputs|
    requires !ShouldSkip(inputs[j1]) && dim < |inputs[j1].sizes| && a1 < inputs[j1].sizes[dim]
    ensures SliceStart(inputs, dim, j1) + a1 < SliceStart(inputs, dim, j2) + a2
  {
    SliceStartMonotone(inputs, dim, j1 + 1, j2);
  }

  /** The concatenated storage is determined: two results that both place every
      element and leave the rest untouched are equal. */
  lemma PlacedUnique<T>(r1: seq<T>, r2: seq<T>, output: seq<T>, inputs: seq<Tensor<T>>, dim: nat, outStrides: seq<nat>)
    requires Placed(r1, output, inputs, dim, outStrides, |inputs|)
    requires Placed(r2, output, inputs, dim, outStrides, |inputs|)
    ensures r1 == r2
  {
    forall p | 0 <= p < |output|
      ensures r1[p] == r2[p]
    {
      if IsPlaced(inputs, dim, outStrides, |inputs|, p) {
        var j: nat, i: nat :| j < |inputs| && j < |inputs| && Participates(inputs[j], dim, |outStrides|) && i < Numel(inputs[j])
          && PlaceOffset(inputs, dim, outStrides, j, i) == p;
        assert r1[p] == ElementAt(inputs[j], i) == r2[p];
      }
    }
  }

  /** Before anything is copied the output is as it was. */
  lemma PlacedNone<T>(output: seq<T>, inputs: seq<Tensor<T>>, dim: nat, outStrides: seq<nat>)
    ensures Placed(output, output, inputs, dim, outStrides, 0)
  {
  }

  /** Copying the next inputs into a storage where the earlier ones are placed
      places them all: later copies never overwrite an earlier placement. */
  lemma PlacedExtend<T>(res: seq<T>, prev: seq<T>, output: seq<T>, inputs: seq<Tensor<T>>, dim: nat,
                        outSizes: seq<nat>, outStrides: seq<nat>, lo: nat, hi: nat)
    requires Fits(inputs, dim, outSizes, outStrides) && lo <= hi
    requires Placed(prev, output, inputs, dim, outStrides, lo)
    requires CopiedRange(res, prev, inputs, dim, outStrides, lo, hi)
    ensures Placed(res, output, inputs, dim, outStrides, hi)
  {
    forall j: nat, i: nat | j < lo && j < |inputs| && Participates(inputs[j], dim, |outStrides|) && i < Numel(inputs[j])
      ensures res[PlaceOffset(inputs, dim, outStrides, j, i)] == prev[PlaceOffset(inputs, dim, outStrides, j, i)]
    {
      forall j2: nat, i2: nat | lo <= j2 < hi && j2 < |inputs| && Participates(inputs[j2], dim, |outStrides|) && i2 < Numel(inputs[j2])
        ensures PlaceOffset(inputs, dim, outStrides, j2, i2) != PlaceOffset(inputs, dim, outStrides, j, i)
      {
        if PlaceOffset(inputs, dim, outStrides, j2, i2) == PlaceOffset(inputs, dim, outStrides, j, i) {
          PlacementInjective(inputs, dim, outSizes, outStrides, j, i, j2, i2);
        }
      }
    }
  }
}
