/** The index arithmetic of the fused concatenation kernel: the launch
    constants and `CatArrIndexToOffset`, which turns the position of an element
    inside one input into its offset inside the output. */
module CatIndex {
  import opened MixedRadix

  /** Inputs whose descriptors are staged per kernel launch. */
  const CatArrayBatchSize: nat := 1024

  /** Highest output rank the fused kernel handles. */
  const CatArrayMaxInputDims: nat := 3

  /** The radices an input's element index is decomposed over: the output's
      extents, with the extent along the concat dimension replaced by the
      input's own extent there. */
  function Radices(outputSize: seq<nat>, dimSize: nat, concatDim: nat): (r: seq<nat>)
    ensures |r| == |outputSize|
  {
    if concatDim < |outputSize| then outputSize[concatDim := dimSize] else outputSize
  }

  /** An input whose shape agrees with the output's except along the concat
      dimension is decomposed over its own shape. */
  lemma RadicesOfInput(outputSize: seq<nat>, inputSize: seq<nat>, concatDim: nat)
    requires |inputSize| == |outputSize| && concatDim < |outputSize|
    requires forall d :: 0 <= d < |outputSize| && d != concatDim ==> inputSize[d] == outputSize[d]
    ensures Radices(outputSize, inputSize[concatDim], concatDim) == inputSize
  {
  }

  /** The output coordinate of element `linearIndex` of an input: the row-major
      digits of the index over the radices. */
  function Coordinates(outputSize: seq<nat>, dimSize: nat, concatDim: nat, linearIndex: nat): (c: seq<nat>)
    requires InnerPositive(Radices(outputSize, dimSize, concatDim))
    ensures InRange(Radices(outputSize, dimSize, concatDim), c)
    ensures |c| >= 1 ==> Linearize(Radices(outputSize, dimSize, concatDim), c) == linearIndex
  {
    var r := Radices(outputSize, dimSize, concatDim);
    DigitsInRange(r, linearIndex);
    if |r| >= 1 then LinearizeDigits(r, linearIndex); Digits(r, linearIndex)
    else Digits(r, linearIndex)
  }

  /** The value `CatArrIndexToOffset` computes: the strided offset of the coordinate. */
  function ElementOffset(outputSize: seq<nat>, outputStride: seq<nat>, dimSize: nat, concatDim: nat, linearIndex: nat): nat
    requires |outputSize| == |outputStride|
    requires InnerPositive(Radices(outputSize, dimSize, concatDim))
  {
    Dot(Coordinates(outputSize, dimSize, concatDim, linearIndex), outputStride)
  }

  /** The kernel's quotient, and its remainder computed by subtraction, are the
      digit arithmetic's `Quot` and `Rem`. */
  lemma MachineDivision(x: nat, q: nat)
    requires q > 0
    ensures x / q == Quot(x, q)
    ensures x - q * (x / q) == Rem(x, q)
  {
    QuotRemAreDivMod(x, q);
    QuotRem(x, q);
  }

  /** The radix of dimension `i`: the input's own extent along the concat
      dimension, the output's extent elsewhere. */
  function CurDimSize(outputSize: seq<nat>, dimSize: nat, concatDim: nat, i: nat): (n: nat)
    requires i < |outputSize|
    ensures n == Radices(outputSize, dimSize, concatDim)[i]
  {
    if i == concatDim then dimSize else outputSize[i]
  }

  /** The offset still to be added when the loop reaches dimension `i` with the
      remaining index `index`: the innermost digit times its stride, then the
      same for the quotient over the dimensions outside. */
  function Remaining(r: seq<nat>, s: seq<nat>, i: nat, index: nat): nat
    requires |r| == |s| && i < |r| && InnerPositive(r)
  {
    if i == 0 then index * s[0]
    else Rem(index, r[i]) * s[i] + Remaining(r, s, i - 1, Quot(index, r[i]))
  }

  /** What remains at dimension `i` is the strided offset of the digits of the
      remaining index over the dimensions up to `i`. */
  lemma {:induction false} RemainingIsDot(r: seq<nat>, s: seq<nat>, i: nat, index: nat)
    requires |r| == |s| && i < |r| && InnerPositive(r)
    ensures Remaining(r, s, i, index) == Dot(Digits(r[..i + 1], index), s[..i + 1])
  {
    if i == 0 {
      assert Digits(r[..1], index) == [index];
      assert Dot([index], s[..1]) == Dot([], []) + index * s[0];
    } else {
      RemainingIsDot(r, s, i - 1, Quot(index, r[i]));
      assert r[..i + 1][..i] == r[..i] && s[..i + 1][..i] == s[..i];
      DotDigits(r[..i + 1], s[..i + 1], index);
    }
  }

  /** All that remains at the innermost dimension is the element's offset. */
  lemma RemainingIsOffset(outputSize: seq<nat>, outputStride: seq<nat>, dimSize: nat, concatDim: nat, linearIndex: nat)
    requires 1 <= |outputSize| == |outputStride|
    requires InnerPositive(Radices(outputSize, dimSize, concatDim))
    ensures Remaining(Radices(outputSize, dimSize, concatDim), outputStride, |outputSize| - 1, linearIndex)
         == Dot(Coordinates(outputSize, dimSize, concatDim, linearIndex), outputStride)
  {
    var r := Radices(outputSize, dimSize, concatDim);
    RemainingIsDot(r, outputStride, |r| - 1, linearIndex);
    assert r[..|r|] == r && outputStride[..|r|] == outputStride;
  }

  /** The division step of the loop body: the index of the next dimension and
      the remainder left in the current one. */
  method SplitIndex(linearIndex: nat, curDimSize: nat) returns (nextDimIndex: nat, curDimIndex: nat)
    requires curDimSize > 0
    ensures nextDimIndex == Quot(linearIndex, curDimSize) && curDimIndex == Rem(linearIndex, curDimSize)
  {
    MachineDivision(linearIndex, curDimSize);
    nextDimIndex := linearIndex / curDimSize;
    curDimIndex := linearIndex - curDimSize * nextDimIndex;
  }

  /** `CatArrIndexToOffset::compute`, innermost dimension first: each step splits
      the remaining index by the current radix, adds the remainder times the
      output stride, and continues with the quotient; the outermost quotient is
      multiplied by the outermost stride. */
  method IndexToOffset(outputSize: seq<nat>, outputStride: seq<nat>, dimSize: nat, concatDim: nat, linearIndex: nat)
    returns (offset: nat)
    requires 1 <= |outputSize| == |outputStride|
    requires InnerPositive(Radices(outputSize, dimSize, concatDim))
    ensures offset == Dot(Coordinates(outputSize, dimSize, concatDim, linearIndex), outputStride)
    ensures |outputSize| == 1 ==> offset == linearIndex * outputStride[0]
  {
    ghost var r := Radices(outputSize, dimSize, concatDim);
    ghost var target := Remaining(r, outputStride, |r| - 1, linearIndex);
    var dims := |outputSize|;
    offset := 0;
    var index: nat := linearIndex;
    var i := dims - 1;
    while i >= 1
      invariant 0 <= i < dims
      invariant offset + Remaining(r, outputStride, i, index) == target
    {
      var curDimSize := CurDimSize(outputSize, dimSize, concatDim, i);
      var nextDimIndex, curDimIndex := SplitIndex(index, curDimSize);
      var curDimOffset := curDimIndex * outputStride[i];
      offset := offset + curDimOffset;
      index := nextDimIndex;
      i := i - 1;
    }
    offset := offset + index * outputStride[0];
    RemainingIsOffset(outputSize, outputStride, dimSize, concatDim, linearIndex);
  }
}
