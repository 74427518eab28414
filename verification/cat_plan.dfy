/** The planning half of `cat` (Cat.cpp): which inputs are skipped, whether the
    remaining ones agree in shape, what the output's shape is, and which of the
    two copy paths runs. */
module CatPlan {
  import opened Results
  import opened MixedRadix
  import opened Tensors
  import opened CatLayout
  import opened CatIndex

  /** The errors `cat` and `_cat_out` raise (each a failed `TORCH_CHECK`, except
      `DimensionOutOfRange`, which `Tensor::size` raises). */
  datatype CatError =
    | CannotCastInputs
    | InputOverlapsOutput(index: nat)
    | OutputOverlapsItself
    | InvalidNumberOfInputs
    | InvalidDimension
    | RankMismatch
    | SizeMismatch
    | DimensionOutOfRange

  /** `check_shape_except_dim`: the ranks must agree, then every dimension other
      than `dimension`, in order. */
  method CheckShapeExceptDim(first: seq<nat>, second: seq<nat>, dimension: int) returns (r: Outcome<CatError>)
    ensures r == Pass <==> SameShapeExcept(first, second, dimension)
    ensures r == Fail(RankMismatch) <==> |first| != |second|
    ensures r == Pass || r == Fail(RankMismatch) || r == Fail(SizeMismatch)
  {
    if |first| != |second| {
      return Fail(RankMismatch);
    }
    var dim := 0;
    while dim < |first|
      invariant dim <= |first|
      invariant forall d :: 0 <= d < dim && d != dimension ==> first[d] == second[d]
    {
      if dim != dimension && first[dim] != second[dim] {
        return Fail(SizeMismatch);
      }
      dim := dim + 1;
    }
    return Pass;
  }

  /** Input `j` is the last one `cat` does not skip. */
  predicate IsLastKept<T>(inputs: seq<Tensor<T>>, j: nat)
  {
    j < |inputs| && !ShouldSkip(inputs[j]) && forall k :: j < k < |inputs| ==> ShouldSkip(inputs[k])
  }

  /** There is at most one last kept input. */
  lemma LastKeptUnique<T>(inputs: seq<Tensor<T>>, j1: nat, j2: nat)
    requires IsLastKept(inputs, j1) && IsLastKept(inputs, j2)
    ensures j1 == j2
  {
  }

  /** The first loop of `cat`, lines 274-281: note whether any input is skipped
      and remember the last input that is not. */
  method ScanInputs<T>(inputs: seq<Tensor<T>>) returns (hasSkippedInput: bool, last: Option<nat>)
    ensures hasSkippedInput <==> exists j :: 0 <= j < |inputs| && ShouldSkip(inputs[j])
    ensures last == None <==> forall j :: 0 <= j < |inputs| ==> ShouldSkip(inputs[j])
    ensures last.Some? ==> IsLastKept(inputs, last.value)
  {
    hasSkippedInput := false;
    last := None;
    var i := 0;
    while i < |inputs|
      invariant i <= |inputs|
      invariant hasSkippedInput <==> exists j :: 0 <= j < i && ShouldSkip(inputs[j])
      invariant last == None <==> forall j :: 0 <= j < i ==> ShouldSkip(inputs[j])
      invariant last.Some? ==> last.value < i && !ShouldSkip(inputs[last.value])
                               && forall k :: last.value < k < i ==> ShouldSkip(inputs[k])
    {
      if ShouldSkip(inputs[i]) {
        hasSkippedInput := true;
      } else {
        last := Some(i);
      }
      i := i + 1;
    }
  }

  /** Every input `cat` keeps has the reference shape except along `dim`, and
      has that dimension. */
  predicate Consistent<T>(inputs: seq<Tensor<T>>, reference: seq<nat>, dim: nat)
  {
    forall j :: 0 <= j < |inputs| && !ShouldSkip(inputs[j]) ==>
      SameShapeExcept(reference, inputs[j].sizes, dim) && dim < |inputs[j].sizes|
  }

  /** The second loop of `cat`, lines 297-304: every kept input is checked
      against the reference shape and its extent along `dimension` is summed.
      The sum is the start of the slice after the last input. */
  method ConcatExtent<T>(inputs: seq<Tensor<T>>, reference: seq<nat>, dimension: nat) returns (r: Result<nat, CatError>)
    ensures r.Ok? <==> Consistent(inputs, reference, dimension)
    ensures r.Ok? ==> r.value == SliceStart(inputs, dimension, |inputs|)
    ensures r.Err? ==> r.error in {RankMismatch, SizeMismatch, DimensionOutOfRange}
    ensures r == Err(RankMismatch) ==>
              exists j :: 0 <= j < |inputs| && !ShouldSkip(inputs[j]) && |inputs[j].sizes| != |reference|
    ensures r == Err(SizeMismatch) ==>
              exists j :: 0 <= j < |inputs| && !ShouldSkip(inputs[j]) && !SameShapeExcept(reference, inputs[j].sizes, dimension)
    ensures r == Err(DimensionOutOfRange) ==>
              exists j :: 0 <= j < |inputs| && !ShouldSkip(inputs[j]) && |inputs[j].sizes| <= dimension
  {
    var catDimSize := 0;
    var i := 0;
    while i < |inputs|
      invariant i <= |inputs|
      invariant Consistent(inputs[..i], reference, dimension)
      invariant catDimSize == SliceStart(inputs, dimension, i)
    {
      var tensor := inputs[i];
      if !ShouldSkip(tensor) {
        var check := CheckShapeExceptDim(reference, tensor.sizes, dimension);
        if check.Fail? {
          return Err(check.error);
        }
        if dimension >= |tensor.sizes| {
          return Err(DimensionOutOfRange);
        }
        catDimSize := catDimSize + tensor.sizes[dimension];
      }
      assert inputs[..i + 1] == inputs[..i] + [tensor];
      i := i + 1;
    }
    assert inputs[..i] == inputs;
    return Ok(catDimSize);
  }

  /** The third loop of `cat`, lines 306-312: the reference shape with the
      extent along `dimension` replaced by the summed extent. */
  method OutputShape(reference: seq<nat>, dimension: nat, catDimSize: nat) returns (size: seq<nat>)
    requires dimension < |reference|
    ensures size == reference[dimension := catDimSize]
  {
    size := [];
    var dim := 0;
    while dim < |reference|
      invariant dim <= |reference| && size == reference[dimension := catDimSize][..dim]
    {
      var resultDimSize := reference[dim];
      if dim == dimension {
        resultDimSize := catDimSize;
      }
      size := size + [resultDimSize];
      dim := dim + 1;
    }
  }

  /** `cat` returns early, leaving the output as it is, when the last input it
      does not skip is undefined too, or when it skips every input. */
  predicate NothingKept<T>(inputs: seq<Tensor<T>>)
  {
    forall j :: 0 <= j < |inputs| && IsLastKept(inputs, j) ==> !inputs[j].defined
  }

  /** What planning decides: nothing to do (every input is skipped), or copy into
      an output of shape `sizes`, the shape of input `last` with the concat
      extent summed. */
  datatype Plan = NothingToDo | Copy(hasSkippedInput: bool, last: nat, sizes: seq<nat>)

  /** Lines 274-313 of `cat` up to the resize: scan, return early when nothing
      is kept, check the count and the dimension, check the shapes, and derive
      the output shape. */
  method PlanCat<T>(inputs: seq<Tensor<T>>, dimension: int) returns (r: Result<Plan, CatError>)
    ensures r == Ok(NothingToDo) <==> NothingKept(inputs)
    ensures (forall j :: 0 <= j < |inputs| ==> ShouldSkip(inputs[j])) ==> r == Ok(NothingToDo)
    ensures r != Err(InvalidNumberOfInputs)
    ensures r == Err(InvalidDimension) <==> !NothingKept(inputs) && dimension < 0
    ensures forall j: nat :: IsLastKept(inputs, j) && inputs[j].defined ==>
              (r.Ok? <==> dimension >= 0 && Consistent(inputs, inputs[j].sizes, dimension))
    ensures r.Ok? && r.value.Copy? ==>
              && 0 <= dimension
              && IsLastKept(inputs, r.value.last) && inputs[r.value.last].defined
              && (r.value.hasSkippedInput <==> exists j :: 0 <= j < |inputs| && ShouldSkip(inputs[j]))
              && Consistent(inputs, inputs[r.value.last].sizes, dimension)
              && dimension < |inputs[r.value.last].sizes|
              && r.value.sizes == inputs[r.value.last].sizes[dimension := SliceStart(inputs, dimension, |inputs|)]
  {
    var hasSkippedInput, last := ScanInputs(inputs);
    if last.None? || !inputs[last.value].defined {
      return Ok(NothingToDo);
    }
    forall j | IsLastKept(inputs, j)
      ensures j == last.value
    {
      LastKeptUnique(inputs, j, last.value);
    }
    if |inputs| == 0 {
      return Err(InvalidNumberOfInputs);
    }
    if dimension < 0 {
      return Err(InvalidDimension);
    }
    var reference := inputs[last.value].sizes;
    var extent := ConcatExtent(inputs, reference, dimension);
    if extent.Err? {
      return Err(extent.error);
    }
    var size := OutputShape(reference, dimension, extent.value);
    return Ok(Copy(hasSkippedInput, last.value, size));
  }

  /** The planned output shape is the shape every kept input has except along
      the concat dimension, and its extent there is the sum of theirs. */
  lemma PlannedShapeFits<T>(inputs: seq<Tensor<T>>, last: nat, dim: nat, sizes: seq<nat>)
    requires IsLastKept(inputs, last) && Consistent(inputs, inputs[last].sizes, dim) && dim < |inputs[last].sizes|
    requires sizes == inputs[last].sizes[dim := SliceStart(inputs, dim, |inputs|)]
    ensures dim < |sizes| && sizes[dim] == SliceStart(inputs, dim, |inputs|)
    ensures forall j :: 0 <= j < |inputs| && !ShouldSkip(inputs[j]) ==>
              SameShapeExcept(inputs[j].sizes, sizes, dim) && Shaped(inputs[j], dim, |sizes|)
  {
  }

  /** `allSameType` of `_cat_out`: every input has the first input's element
      type, and so does `out`. */
  function AllSameType<T>(tensors: seq<Tensor<T>>, outType: ScalarType): (r: bool)
    requires |tensors| > 0
    ensures r <==> forall j :: 0 <= j < |tensors| ==> tensors[j].scalarType == outType
  {
    var firstType := tensors[0].scalarType;
    (forall j :: 0 <= j < |tensors| ==> tensors[j].scalarType == firstType) && outType == firstType
  }

  /** `allContiguous` of `cat`: an undefined input counts as contiguous. */
  predicate AllContiguous<T>(inputs: seq<Tensor<T>>)
  {
    forall j :: 0 <= j < |inputs| ==> !inputs[j].defined || IsContiguous(inputs[j])
  }

  /** `all32BitIndexable` of `cat`. */
  predicate All32BitIndexable<T>(inputs: seq<Tensor<T>>)
  {
    forall j :: 0 <= j < |inputs| ==> CanUse32BitIndexMath(inputs[j])
  }

  /** The condition of lines 324-327 under which the fused kernel runs. */
  predicate UseFusedKernel<T>(inputs: seq<Tensor<T>>, hasSkippedInput: bool, result: Tensor<T>, allSameType: bool)
  {
    && |inputs| > 1
    && !hasSkippedInput
    && |result.sizes| <= CatArrayMaxInputDims
    && CanUse32BitIndexMath(result)
    && AllContiguous(inputs)
    && All32BitIndexable(inputs)
    && allSameType
  }
}
