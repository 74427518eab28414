/** `impl::cat` and `_cat_out` (Cat.cpp): the checks, the plan, the resize of
    the output, and the two copy paths, the fused batched kernel and the
    per-input `narrow` + `copy_` fallback. Both paths are proved to produce the
    concatenation `Placed` defines, so they produce the same storage. */
module Cat {
  import opened Results
  import opened MixedRadix
  import opened Tensors
  import opened CatLayout
  import opened CatIndex
  import opened CatBatch
  import opened CatPlan

  // ---------------------------------------------------------------------------
  // The fallback path

  /** A strided view into a storage: what `at::narrow` returns. */
  datatype View = View(sizes: seq<nat>, strides: seq<nat>, storageOffset: nat)

  /** `at::narrow(t, dim, start, length)`: the same strides, the extent along
      `dim` cut to `length`, the storage offset moved `start` steps along `dim`. */
  function Narrow<T>(t: Tensor<T>, dim: nat, start: nat, length: nat): View
    requires dim < |t.sizes| == |t.strides|
  {
    View(t.sizes[dim := length], t.strides, start * t.strides[dim])
  }

  /** Storage position of the `i`-th element, in row-major order, of a view. */
  function ViewPosition(v: View, i: nat): nat
    requires |v.sizes| == |v.strides| && i < Product(v.sizes)
  {
    v.storageOffset + Dot(Digits(v.sizes, i), v.strides)
  }

  /** The fallback writes element `i` of input `j` where the fused kernel does:
      the narrow view at the input's running offset has the input's shape, and
      its `i`-th position is the element's placement. */
  lemma NarrowIsPlacement<T>(out: Tensor<T>, inputs: seq<Tensor<T>>, dim: nat, j: nat, i: nat)
    requires dim < |out.sizes| == |out.strides|
    requires j < |inputs| && SameShapeExcept(inputs[j].sizes, out.sizes, dim) && i < Numel(inputs[j])
    ensures Narrow(out, dim, SliceStart(inputs, dim, j), inputs[j].sizes[dim]).sizes == inputs[j].sizes
    ensures ViewPosition(Narrow(out, dim, SliceStart(inputs, dim, j), inputs[j].sizes[dim]), i)
         == PlaceOffset(inputs, dim, out.strides, j, i)
  {
    var v := Narrow(out, dim, SliceStart(inputs, dim, j), inputs[j].sizes[dim]);
    assert v.sizes == inputs[j].sizes;
    PlaceOffsetSplit(inputs, dim, out.strides, j, i);
  }

  /** The output is ready for copying: its shape is the planned one, its
      storage holds all its elements, and the kept inputs are well formed. */
  ghost predicate CanFill<T>(out: Tensor<T>, inputs: seq<Tensor<T>>, dim: nat)
  {
    && Fits(inputs, dim, out.sizes, out.strides)
    && WellFormed(out) && IsContiguous(out)
    && forall j :: 0 <= j < |inputs| && !ShouldSkip(inputs[j]) ==> Participates(inputs[j], dim, |out.strides|)
  }

  /** Storing element `e` of input `j` at its placement leaves the elements
      before it where they were stored. */
  lemma PlacementsBefore<T>(out: Tensor<T>, inputs: seq<Tensor<T>>, dim: nat, j: nat, e: nat)
    requires CanFill(out, inputs, dim) && j < |inputs| && !ShouldSkip(inputs[j]) && e < Numel(inputs[j])
    ensures PlaceOffset(inputs, dim, out.strides, j, e) < |out.data|
    ensures forall e' :: 0 <= e' < e ==> PlaceOffset(inputs, dim, out.strides, j, e') != PlaceOffset(inputs, dim, out.strides, j, e)
  {
    assert Participates(inputs[j], dim, |out.strides|);
    PlacementInside(inputs, dim, out.sizes, out.strides, j, e);
    OutputHoldsElements(out);
    forall e' | 0 <= e' < e
      ensures PlaceOffset(inputs, dim, out.strides, j, e') != PlaceOffset(inputs, dim, out.strides, j, e)
    {
      if PlaceOffset(inputs, dim, out.strides, j, e') == PlaceOffset(inputs, dim, out.strides, j, e) {
        PlacementInjective(inputs, dim, out.sizes, out.strides, j, e', j, e);
      }
    }
  }

  /** `res` is `prev` with the first `e` elements of input `j` stored at their
      placements. */
  ghost predicate CopiedPrefix<T>(res: seq<T>, prev: seq<T>, inputs: seq<Tensor<T>>, dim: nat, outStrides: seq<nat>, j: nat, e: nat)
    requires j < |inputs| && dim < |inputs[j].sizes| == |outStrides| && WellFormed(inputs[j]) && e <= Numel(inputs[j])
  {
    && |res| == |prev|
    && (forall e' :: 0 <= e' < e ==>
          PlaceOffset(inputs, dim, outStrides, j, e') < |res|
          && res[PlaceOffset(inputs, dim, outStrides, j, e')] == ElementAt(inputs[j], e'))
    && (forall p :: 0 <= p < |prev| && (forall e' :: 0 <= e' < e ==> PlaceOffset(inputs, dim, outStrides, j, e') != p)
          ==> res[p] == prev[p])
  }

  /** One step of `copy_`: element `e` of input `j` stored at position `e` of
      the narrow view. */
  method CopyElement<T>(res: seq<T>, prev: seq<T>, out: Tensor<T>, inputs: seq<Tensor<T>>, dim: nat, j: nat, e: nat, view: View)
    returns (res': seq<T>)
    requires CanFill(out, inputs, dim) && j < |inputs| && !ShouldSkip(inputs[j]) && e < Numel(inputs[j])
    requires view == Narrow(out, dim, SliceStart(inputs, dim, j), inputs[j].sizes[dim])
    requires Participates(inputs[j], dim, |out.strides|) && |prev| == |out.data|
    requires CopiedPrefix(res, prev, inputs, dim, out.strides, j, e)
    ensures CopiedPrefix(res', prev, inputs, dim, out.strides, j, e + 1)
  {
    NarrowIsPlacement(out, inputs, dim, j, e);
    PlacementsBefore(out, inputs, dim, j, e);
    var q := ViewPosition(view, e);
    StoreNext(res, prev, inputs, dim, out.strides, j, e, q);
    res' := res[q := ElementAt(inputs[j], e)];
  }

  /** Storing element `e` at its placement, which no earlier element shares,
      extends the copied prefix by one. */
  lemma StoreNext<T>(res: seq<T>, prev: seq<T>, inputs: seq<Tensor<T>>, dim: nat, outStrides: seq<nat>, j: nat, e: nat, q: nat)
    requires j < |inputs| && dim < |inputs[j].sizes| == |outStrides| && WellFormed(inputs[j]) && e < Numel(inputs[j])
    requires CopiedPrefix(res, prev, inputs, dim, outStrides, j, e)
    requires q == PlaceOffset(inputs, dim, outStrides, j, e) && q < |res|
    requires forall e' :: 0 <= e' < e ==> PlaceOffset(inputs, dim, outStrides, j, e') != q
    ensures CopiedPrefix(res[q := ElementAt(inputs[j], e)], prev, inputs, dim, outStrides, j, e + 1)
  {
  }

  /** `narrow(result, dimension, offset, dimSize).copy_(inputs[j])`, lines
      340-342: every element of the input, in row-major order, is stored at
      its position in the narrow view. */
  method CopyInput<T>(prev: seq<T>, out: Tensor<T>, inputs: seq<Tensor<T>>, dim: nat, j: nat, offset: nat)
    returns (res: seq<T>)
    requires |prev| == |out.data| && CanFill(out, inputs, dim)
    requires j < |inputs| && !ShouldSkip(inputs[j]) && offset == SliceStart(inputs, dim, j)
    ensures CopiedRange(res, prev, inputs, dim, out.strides, j, j + 1)
  {
    var x := inputs[j];
    assert Participates(x, dim, |out.strides|);
    var view := Narrow(out, dim, offset, x.sizes[dim]);
    res := prev;
    var e := 0;
    while e < Numel(x)
      invariant e <= Numel(x)
      invariant CopiedPrefix(res, prev, inputs, dim, out.strides, j, e)
    {
      res := CopyElement(res, prev, out, inputs, dim, j, e, view);
      e := e + 1;
    }
    CopiedWhole(res, prev, inputs, dim, out.strides, j);
  }

  /** Once every element of input `j` is stored, input `j` is copied. */
  lemma CopiedWhole<T>(res: seq<T>, prev: seq<T>, inputs: seq<Tensor<T>>, dim: nat, outStrides: seq<nat>, j: nat)
    requires j < |inputs| && Participates(inputs[j], dim, |outStrides|)
    requires CopiedPrefix(res, prev, inputs, dim, outStrides, j, Numel(inputs[j]))
    ensures CopiedRange(res, prev, inputs, dim, outStrides, j, j + 1)
  {
    forall p | 0 <= p < |prev|
        && (forall j': nat, i: nat :: j <= j' < j + 1 && j' < |inputs| && Participates(inputs[j'], dim, |outStrides|) && i < Numel(inputs[j']) ==>
              PlaceOffset(inputs, dim, outStrides, j', i) != p)
      ensures res[p] == prev[p]
    {
      forall e' | 0 <= e' < Numel(inputs[j])
        ensures PlaceOffset(inputs, dim, outStrides, j, e') != p
      {
        assert j <= j < j + 1;
      }
    }
  }

  /** One iteration of the fallback loop: a kept input copied at the running
      offset, a skipped one passed over; the offset carried on. */
  method FallbackStep<T>(prev: seq<T>, out: Tensor<T>, inputs: seq<Tensor<T>>, dimension: nat, j: nat, offset: nat)
    returns (res: seq<T>, next: nat)
    requires CanFill(out, inputs, dimension) && j < |inputs| && |prev| == |out.data|
    requires offset == SliceStart(inputs, dimension, j)
    requires Placed(prev, out.data, inputs, dimension, out.strides, j)
    ensures |res| == |prev| && next == SliceStart(inputs, dimension, j + 1)
    ensures Placed(res, out.data, inputs, dimension, out.strides, j + 1)
  {
    if ShouldSkip(inputs[j]) {
      res, next := prev, offset;
      SkippedCopied(prev, inputs, dimension, out.strides, j);
    } else {
      var dimSize := inputs[j].sizes[dimension];
      res := CopyInput(prev, out, inputs, dimension, j, offset);
      next := offset + dimSize;
    }
    PlacedExtend(res, prev, out.data, inputs, dimension, out.sizes, out.strides, j, j + 1);
  }

  /** Passing over a skipped input copies it. */
  lemma SkippedCopied<T>(prev: seq<T>, inputs: seq<Tensor<T>>, dim: nat, outStrides: seq<nat>, j: nat)
    requires j < |inputs| && ShouldSkip(inputs[j])
    ensures CopiedRange(prev, prev, inputs, dim, outStrides, j, j + 1)
  {
  }

  /** The fallback loop, lines 333-345: the kept inputs in order, each copied
      into the narrow view at the running offset, the offset growing by the
      input's extent along the concat dimension. */
  method Fallback<T>(out: Tensor<T>, inputs: seq<Tensor<T>>, dimension: nat) returns (res: seq<T>)
    requires CanFill(out, inputs, dimension)
    ensures Placed(res, out.data, inputs, dimension, out.strides, |inputs|)
  {
    res := out.data;
    PlacedNone(out.data, inputs, dimension, out.strides);
    var offset := 0;
    var j := 0;
    while j < |inputs|
      invariant j <= |inputs| && |res| == |out.data|
      invariant offset == SliceStart(inputs, dimension, j)
      invariant Placed(res, out.data, inputs, dimension, out.strides, j)
    {
      res, offset := FallbackStep(res, out, inputs, dimension, j, offset);
      j := j + 1;
    }
  }

  // ---------------------------------------------------------------------------
  // `impl::cat` and `_cat_out`

  /** The index of the first input reported as overlapping the output. */
  function FirstOverlap(overlaps: seq<bool>): (r: Option<nat>)
    ensures r == None <==> forall i :: 0 <= i < |overlaps| ==> !overlaps[i]
    ensures r.Some? ==> r.value < |overlaps| && overlaps[r.value] && forall i :: 0 <= i < r.value ==> !overlaps[i]
  {
    if |overlaps| == 0 then None
    else if overlaps[0] then Some(0)
    else match FirstOverlap(overlaps[1..])
      case None => None
      case Some(i) => Some(i + 1)
  }

  /** Which way the output was produced. */
  datatype Path = Untouched | Fused | NarrowCopy | OneDnn

  datatype CatRun<T> = CatRun(out: Tensor<T>, path: Path)

  /** The framework's tensors are well formed; the undefined tensor has no
      layout of its own, which the model expresses as contiguous strides. */
  predicate ValidInputs<T>(inputs: seq<Tensor<T>>)
  {
    forall j :: 0 <= j < |inputs| ==> WellFormed(inputs[j]) && (inputs[j].defined || IsContiguous(inputs[j]))
  }

  /** What the fused path needs, from the plan and the path condition. */
  lemma FusedPathReady<T>(out: Tensor<T>, inputs: seq<Tensor<T>>, dim: nat, hasSkippedInput: bool, allSameType: bool)
    requires CanFill(out, inputs, dim) && ValidInputs(inputs)
    requires hasSkippedInput <==> exists j :: 0 <= j < |inputs| && ShouldSkip(inputs[j])
    requires UseFusedKernel(inputs, hasSkippedInput, out, allSameType)
    ensures CanCopy(out, inputs, dim)
  {
    forall j | 0 <= j < |inputs|
      ensures Participates(inputs[j], dim, |out.sizes|) && IsContiguous(inputs[j])
    {
      assert !ShouldSkip(inputs[j]);
    }
  }

  /** The resized output is ready for copying the planned inputs. */
  lemma ResizedCanFill<T>(result: Tensor<T>, inputs: seq<Tensor<T>>, dim: nat, last: nat, fill: T)
    requires ValidInputs(inputs) && IsLastKept(inputs, last)
    requires Consistent(inputs, inputs[last].sizes, dim) && dim < |inputs[last].sizes|
    ensures CanFill(Resize(result, inputs[last].sizes[dim := SliceStart(inputs, dim, |inputs|)], fill), inputs, dim)
  {
    var sizes := inputs[last].sizes[dim := SliceStart(inputs, dim, |inputs|)];
    var out := Resize(result, sizes, fill);
    ResizeWellFormed(result, sizes, fill);
    PlannedShapeFits(inputs, last, dim, sizes);
  }

  /** `cat` skips some input. */
  predicate HasSkippedInput<T>(inputs: seq<Tensor<T>>)
  {
    exists j :: 0 <= j < |inputs| && ShouldSkip(inputs[j])
  }

  /** `run` is what `cat` produces from `result` when input `last` is the last
      one kept: the output resized to the shape of input `last` with the concat
      extent summed, its storage the concatenation of the inputs, made by the
      fused kernel exactly when the path condition holds. */
  ghost predicate Concatenates<T>(run: CatRun<T>, result: Tensor<T>, inputs: seq<Tensor<T>>, last: nat, dimension: int,
                                  allSameType: bool, fill: T)
    requires last < |inputs|
  {
    && 0 <= dimension < |inputs[last].sizes|
    && var sizes := inputs[last].sizes[dimension := SliceStart(inputs, dimension, |inputs|)];
    && run.out == Resize(result, sizes, fill).(data := run.out.data)
    && (run.path == Fused || run.path == NarrowCopy)
    && (run.path == Fused <==> UseFusedKernel(inputs, HasSkippedInput(inputs), run.out, allSameType))
    && Placed(run.out.data, Resize(result, sizes, fill).data, inputs, dimension, run.out.strides, |inputs|)
  }

  /** Lines 313-345 of `cat`: resize the output to the planned shape, then copy
      by the fused kernel when the path condition holds and input by input
      otherwise. */
  method CopyPlanned<T>(result: Tensor<T>, inputs: seq<Tensor<T>>, dim: nat, last: nat, sizes: seq<nat>,
                        hasSkippedInput: bool, allSameType: bool, workers: nat, fill: T)
    returns (run: CatRun<T>)
    requires workers > 0 && ValidInputs(inputs) && IsLastKept(inputs, last)
    requires Consistent(inputs, inputs[last].sizes, dim) && dim < |inputs[last].sizes|
    requires sizes == inputs[last].sizes[dim := SliceStart(inputs, dim, |inputs|)]
    requires hasSkippedInput == HasSkippedInput(inputs)
    ensures Concatenates(run, result, inputs, last, dim, allSameType, fill)
  {
    var out := Resize(result, sizes, fill);
    ResizedCanFill(result, inputs, dim, last, fill);
    var data;
    var fused := UseFusedKernel(inputs, hasSkippedInput, out, allSameType);
    forall data': seq<T>
      ensures UseFusedKernel(inputs, hasSkippedInput, out.(data := data'), allSameType) == fused
    {
      FusedConditionIgnoresData(inputs, hasSkippedInput, out, data', allSameType);
    }
    if fused {
      FusedPathReady(out, inputs, dim, hasSkippedInput, allSameType);
      data := ParallelCat(out, inputs, dim, |out.sizes|, workers);
      run := CatRun(out.(data := data), Fused);
    } else {
      data := Fallback(out, inputs, dim);
      run := CatRun(out.(data := data), NarrowCopy);
    }
  }

  /** The path condition looks at the output's shape and strides, not at its
      storage. */
  lemma FusedConditionIgnoresData<T>(inputs: seq<Tensor<T>>, hasSkippedInput: bool, out: Tensor<T>, data: seq<T>, allSameType: bool)
    ensures UseFusedKernel(inputs, hasSkippedInput, out.(data := data), allSameType)
         == UseFusedKernel(inputs, hasSkippedInput, out, allSameType)
  {
    var out' := out.(data := data);
    assert Numel(out') == Numel(out);
    if Numel(out) > 0 && |out.strides| == |out.sizes| {
      assert StorageIndex(out', Numel(out) - 1) == StorageIndex(out, Numel(out) - 1);
    }
  }

  /** `impl::cat`, lines 239-346. The type-promotion and overlap checks of the
      framework are given as their outcomes: `castable` for `canCast`,
      `overlaps[i]` for input `i` overlapping the output, `internalOverlap` for
      the output overlapping itself. `workers` is the kernel's grid size and
      `fill` the contents of freshly allocated storage. */
  method CatImpl<T>(result: Tensor<T>, inputs: seq<Tensor<T>>, dimension: int, allSameType: bool,
                    castable: bool, overlaps: seq<bool>, internalOverlap: bool, workers: nat, fill: T)
    returns (r: Result<CatRun<T>, CatError>)
    requires |overlaps| == |inputs| && workers > 0 && ValidInputs(inputs)
    ensures !castable ==> r == Err(CannotCastInputs)
    ensures castable && FirstOverlap(overlaps).Some? ==> r == Err(InputOverlapsOutput(FirstOverlap(overlaps).value))
    ensures castable && FirstOverlap(overlaps).None? && internalOverlap ==> r == Err(OutputOverlapsItself)
    ensures r != Err(InvalidNumberOfInputs)
    ensures r == Ok(CatRun(result, Untouched)) <==> castable && FirstOverlap(overlaps).None? && !internalOverlap && NothingKept(inputs)
    ensures forall last: nat :: IsLastKept(inputs, last) && inputs[last].defined && castable && FirstOverlap(overlaps).None? && !internalOverlap ==>
              (r.Ok? <==> dimension >= 0 && Consistent(inputs, inputs[last].sizes, dimension))
    ensures forall last: nat :: IsLastKept(inputs, last) && inputs[last].defined && r.Ok? ==>
              Concatenates(r.value, result, inputs, last, dimension, allSameType, fill)
  {
    if !castable {
      return Err(CannotCastInputs);
    }
    var overlap := FirstOverlap(overlaps);
    if overlap.Some? {
      return Err(InputOverlapsOutput(overlap.value));
    }
    if internalOverlap {
      return Err(OutputOverlapsItself);
    }
    var plan := PlanCat(inputs, dimension);
    if plan.Err? {
      return Err(plan.error);
    }
    if plan.value.NothingToDo? {
      return Ok(CatRun(result, Untouched));
    }
    var last := plan.value.last;
    forall j: nat | IsLastKept(inputs, j)
      ensures j == last
    {
      LastKeptUnique(inputs, j, last);
    }
    var run := CopyPlanned(result, inputs, dimension, last, plan.value.sizes, plan.value.hasSkippedInput, allSameType, workers, fill);
    return Ok(run);
  }

  /** `_cat_out` hands over to `impl::cat` (lines 372-377): no overlap was
      reported and the oneDNN concatenation does not apply. */
  predicate ToImpl<T>(catValid: bool, tensors: seq<Tensor<T>>, out: Tensor<T>, overlaps: seq<bool>, internalOverlap: bool)
    requires |tensors| > 0
  {
    FirstOverlap(overlaps).None? && !internalOverlap && !(catValid && AllSameType(tensors, out.scalarType))
  }

  /** `_cat_out`, lines 348-380: the overlap checks, `allSameType`, and the
      choice between the oneDNN concatenation (outside this model; `catValid`
      stands for `cat_valid`) and `impl::cat`. */
  method CatOut<T>(out: Tensor<T>, tensors: seq<Tensor<T>>, dim: int, catValid: bool,
                   castable: bool, overlaps: seq<bool>, internalOverlap: bool, workers: nat, fill: T)
    returns (r: Result<CatRun<T>, CatError>)
    requires |tensors| > 0 && |overlaps| == |tensors| && workers > 0 && ValidInputs(tensors)
    ensures FirstOverlap(overlaps).Some? ==> r == Err(InputOverlapsOutput(FirstOverlap(overlaps).value))
    ensures FirstOverlap(overlaps).None? && internalOverlap ==> r == Err(OutputOverlapsItself)
    ensures FirstOverlap(overlaps).None? && !internalOverlap ==>
              (r == Ok(CatRun(out, OneDnn)) <==> catValid && forall j :: 0 <= j < |tensors| ==> tensors[j].scalarType == out.scalarType)
    ensures r.Ok? && r.value.path == Fused ==> forall j :: 0 <= j < |tensors| ==> tensors[j].scalarType == out.scalarType
    ensures ToImpl(catValid, tensors, out, overlaps, internalOverlap) && !castable ==> r == Err(CannotCastInputs)
    ensures ToImpl(catValid, tensors, out, overlaps, internalOverlap) ==>
              (r == Ok(CatRun(out, Untouched)) <==> castable && NothingKept(tensors))
    ensures forall last: nat ::
              IsLastKept(tensors, last) && tensors[last].defined && castable && ToImpl(catValid, tensors, out, overlaps, internalOverlap) ==>
              (r.Ok? <==> dim >= 0 && Consistent(tensors, tensors[last].sizes, dim))
    ensures forall last: nat :: IsLastKept(tensors, last) && tensors[last].defined && r.Ok? && r.value.path != OneDnn ==>
              Concatenates(r.value, out, tensors, last, dim, AllSameType(tensors, out.scalarType), fill)
  {
    var overlap := FirstOverlap(overlaps);
    if overlap.Some? {
      return Err(InputOverlapsOutput(overlap.value));
    }
    if internalOverlap {
      return Err(OutputOverlapsItself);
    }
    var allSameType := AllSameType(tensors, out.scalarType);
    if !allSameType || !catValid {
      r := CatImpl(out, tensors, dim, allSameType, castable, overlaps, internalOverlap, workers, fill);
    } else {
      r := Ok(CatRun(out, OneDnn));
    }
  }
}
