/** `parallel_cat`: the inputs are staged as kernel descriptors in batches of
    at most `CatArrayBatchSize`, with the slice offset carried from batch to
    batch, and each batch is copied by one launch of `CatArrayBatchedCopy`. */
module CatBatch {
  import opened MixedRadix
  import opened Tensors
  import opened GridStride
  import opened CatLayout
  import opened CatIndex
  import opened CatKernel

  /** How many descriptors the batch starting at input `i` of `n` stages. */
  function BatchLength(n: nat, i: nat): nat
  {
    if n <= i then 0 else if n - i < CatArrayBatchSize then n - i else CatArrayBatchSize
  }

  /** The positions the staging loop starts a batch at: 0, 1024, 2048, ... below `n`. */
  function BatchStarts(n: nat): seq<nat>
  {
    Visits(0, CatArrayBatchSize, n)
  }

  /** Every input lies in exactly one batch: a batch start `s` covers input `j`
      exactly when `s` is `j` rounded down to a multiple of the batch size. */
  lemma ExactlyOneBatch(n: nat, j: nat, s: nat)
    requires j < n && s in BatchStarts(n)
    ensures s <= j < s + BatchLength(n, s) <==> s == j - j % CatArrayBatchSize
  {
    VisitsMembers(0, CatArrayBatchSize, n, s);
    if s <= j < s + BatchLength(n, s) {
      var q := s / CatArrayBatchSize;
      assert s == q * CatArrayBatchSize;
      DivModOfComposition(q, CatArrayBatchSize, j - s);
    }
  }

  /** The batch start covering input `j` is one of the batch starts. */
  lemma BatchOfInput(n: nat, j: nat)
    requires j < n
    ensures j - j % CatArrayBatchSize in BatchStarts(n)
  {
    var s := j - j % CatArrayBatchSize;
    VisitsMembers(0, CatArrayBatchSize, n, s);
    DivModOfComposition(j / CatArrayBatchSize, CatArrayBatchSize, 0);
  }

  /** Inputs the staging loop can read: not skipped, having the concat
      dimension. */
  predicate Stageable<T>(inputs: seq<Tensor<T>>, dim: nat)
  {
    forall j :: 0 <= j < |inputs| ==> !ShouldSkip(inputs[j]) && dim < |inputs[j].sizes|
  }

  /** The inner staging loop, lines 180-193: from input `i` on, at most
      `CatArrayBatchSize` descriptors, each recording the input's storage, the
      running offset, its extent along the concat dimension and its element
      count, the offset growing by that extent. */
  method StageBatch<T>(inputs: seq<Tensor<T>>, dim: nat, i: nat, offset: nat)
    returns (stack: seq<CatArrInputTensor<T>>, next: nat)
    requires i <= |inputs| && Stageable(inputs, dim) && offset == SliceStart(inputs, dim, i)
    ensures |stack| == BatchLength(|inputs|, i)
    ensures forall k :: 0 <= k < |stack| ==>
              && stack[k].input == inputs[i + k].data
              && stack[k].offset == SliceStart(inputs, dim, i + k)
              && stack[k].dimSize == inputs[i + k].sizes[dim]
              && stack[k].nElements == Numel(inputs[i + k])
    ensures next == SliceStart(inputs, dim, i + |stack|)
  {
    stack := [];
    next := offset;
    var batchCounter := 0;
    while batchCounter < CatArrayBatchSize && i + batchCounter < |inputs|
      invariant batchCounter <= CatArrayBatchSize && i + batchCounter <= |inputs|
      invariant |stack| == batchCounter
      invariant forall k :: 0 <= k < |stack| ==>
                  && stack[k].input == inputs[i + k].data
                  && stack[k].offset == SliceStart(inputs, dim, i + k)
                  && stack[k].dimSize == inputs[i + k].sizes[dim]
                  && stack[k].nElements == Numel(inputs[i + k])
      invariant next == SliceStart(inputs, dim, i + batchCounter)
    {
      var t := inputs[i + batchCounter];
      var dimSize := t.sizes[dim];
      stack := stack + [CatArrInputTensor(t.data, next, dimSize, Numel(t))];
      next := next + dimSize;
      batchCounter := batchCounter + 1;
    }
  }

  function Min(a: nat, b: nat): nat
  {
    if a <= b then a else b
  }

  /** What the planner guarantees `parallel_cat`: the shape facts, a well-formed
      contiguous output, and participating contiguous inputs. */
  ghost predicate CanCopy<T>(out: Tensor<T>, inputs: seq<Tensor<T>>, dim: nat)
  {
    && Fits(inputs, dim, out.sizes, out.strides)
    && WellFormed(out) && IsContiguous(out)
    && forall j :: 0 <= j < |inputs| ==> Participates(inputs[j], dim, |out.sizes|) && IsContiguous(inputs[j])
  }

  lemma CanCopyStageable<T>(out: Tensor<T>, inputs: seq<Tensor<T>>, dim: nat)
    requires CanCopy(out, inputs, dim)
    ensures Stageable(inputs, dim)
  {
  }

  /** The launch for the batch starting at input `i`: the output's shape, the
      concat dimension and its stride, and the staged descriptors. */
  ghost predicate BatchLaunch<T>(l: Launch<T>, out: Tensor<T>, inputs: seq<Tensor<T>>, dim: nat, i: nat)
  {
    && l.os == OutputTensorSizeStride(out.sizes, out.strides)
    && l.concatDim == dim && dim < |out.strides| && l.dimStride == out.strides[dim]
    && i + |l.inputs| <= |inputs|
    && forall k :: 0 <= k < |l.inputs| ==>
         dim < |inputs[i + k].sizes|
         && l.inputs[k] == CatArrInputTensor(inputs[i + k].data, SliceStart(inputs, dim, i + k),
                                             inputs[i + k].sizes[dim], Numel(inputs[i + k]))
  }

  /** The storage position of an element within its slice, split into the
      slice's start and the element's own strided offset. */
  lemma PlaceOffsetSplit<T>(inputs: seq<Tensor<T>>, dim: nat, outStrides: seq<nat>, j: nat, t: nat)
    requires j < |inputs| && dim < |inputs[j].sizes| == |outStrides| && t < Numel(inputs[j])
    ensures PlaceOffset(inputs, dim, outStrides, j, t)
         == SliceStart(inputs, dim, j) * outStrides[dim] + Dot(Digits(inputs[j].sizes, t), outStrides)
  {
    DotUpdate(Digits(inputs[j].sizes, t), outStrides, dim, SliceStart(inputs, dim, j));
  }

  /** The descriptor of a contiguous input shaped like the output except along
      the concat dimension is ready, and the kernel stores its element `t` at
      the slice's start plus the element's strided offset. */
  lemma DescriptorDest<T>(l: Launch<T>, outSizes: seq<nat>, outStrides: seq<nat>, k: nat, x: Tensor<T>, start: nat, t: nat)
    requires l.os == OutputTensorSizeStride(outSizes, outStrides)
    requires l.concatDim < |outSizes| == |outStrides| && l.dimStride == outStrides[l.concatDim]
    requires SameShapeExcept(x.sizes, outSizes, l.concatDim) && WellFormed(x) && IsContiguous(x)
    requires k < |l.inputs| && l.inputs[k] == CatArrInputTensor(x.data, start, x.sizes[l.concatDim], Numel(x))
    ensures Ready(l, k)
    ensures t < Numel(x) ==> Dest(l, k, t) == start * outStrides[l.concatDim] + Dot(Digits(x.sizes, t), outStrides)
  {
    RadicesOfInput(outSizes, x.sizes, l.concatDim);
    if Numel(x) > 0 {
      ContiguousStorageIndex(x, Numel(x) - 1);
    }
  }

  /** What the planner's guarantees say about the input behind entry `k`. */
  lemma EntryInput<T>(l: Launch<T>, out: Tensor<T>, inputs: seq<Tensor<T>>, dim: nat, i: nat, k: nat)
    requires CanCopy(out, inputs, dim) && BatchLaunch(l, out, inputs, dim, i) && k < |l.inputs|
    ensures i + k < |inputs| && dim < |inputs[i + k].sizes|
    ensures Shaped(inputs[i + k], dim, |out.strides|) && WellFormed(inputs[i + k]) && IsContiguous(inputs[i + k])
    ensures SameShapeExcept(inputs[i + k].sizes, out.sizes, dim)
    ensures l.inputs[k] == CatArrInputTensor(inputs[i + k].data, SliceStart(inputs, dim, i + k),
                                             inputs[i + k].sizes[dim], Numel(inputs[i + k]))
  {
    assert Participates(inputs[i + k], dim, |out.sizes|);
  }

  /** Entry `k` of a batch launch is ready, and the kernel stores its element
      `t` at the element's placement. */
  lemma DestIsPlacement<T>(l: Launch<T>, out: Tensor<T>, inputs: seq<Tensor<T>>, dim: nat, i: nat, k: nat, t: nat)
    requires CanCopy(out, inputs, dim) && BatchLaunch(l, out, inputs, dim, i) && k < |l.inputs|
    ensures i + k < |inputs| && Shaped(inputs[i + k], dim, |out.strides|) && Ready(l, k)
    ensures t < l.inputs[k].nElements ==>
              t < Numel(inputs[i + k]) && Dest(l, k, t) == PlaceOffset(inputs, dim, out.strides, i + k, t)
  {
    EntryInput(l, out, inputs, dim, i, k);
    EntryDest(l, out.sizes, out.strides, inputs, dim, i, k, t);
  }

  /** The same, from the facts about the entry's input alone. */
  lemma EntryDest<T>(l: Launch<T>, outSizes: seq<nat>, outStrides: seq<nat>, inputs: seq<Tensor<T>>, dim: nat, i: nat, k: nat, t: nat)
    requires l.os == OutputTensorSizeStride(outSizes, outStrides)
    requires l.concatDim == dim < |outSizes| == |outStrides| && l.dimStride == outStrides[dim]
    requires i + k < |inputs| && SameShapeExcept(inputs[i + k].sizes, outSizes, dim)
    requires WellFormed(inputs[i + k]) && IsContiguous(inputs[i + k])
    requires k < |l.inputs| && l.inputs[k] == CatArrInputTensor(inputs[i + k].data, SliceStart(inputs, dim, i + k),
                                                                 inputs[i + k].sizes[dim], Numel(inputs[i + k]))
    ensures Ready(l, k)
    ensures t < l.inputs[k].nElements ==> Dest(l, k, t) == PlaceOffset(inputs, dim, outStrides, i + k, t)
  {
    DescriptorDest(l, outSizes, outStrides, k, inputs[i + k], SliceStart(inputs, dim, i + k), t);
    if t < Numel(inputs[i + k]) {
      PlaceOffsetSplit(inputs, dim, outStrides, i + k, t);
    }
  }

  /** Every store of launch `l` is the placement of an element of a shaped
      input among those from `i` on. */
  ghost predicate StoresArePlacements<T>(l: Launch<T>, inputs: seq<Tensor<T>>, dim: nat, outStrides: seq<nat>, i: nat)
  {
    && AllReady(l)
    && forall k: nat, t: nat {:trigger Dest(l, k, t)} :: k < |l.inputs| && t < l.inputs[k].nElements ==>
         && i + k < |inputs| && Shaped(inputs[i + k], dim, |outStrides|) && t < Numel(inputs[i + k])
         && Dest(l, k, t) == PlaceOffset(inputs, dim, outStrides, i + k, t)
  }

  /** One store of a launch whose stores are placements. */
  lemma StoreAt<T>(l: Launch<T>, inputs: seq<Tensor<T>>, dim: nat, outStrides: seq<nat>, i: nat, k: nat, t: nat)
    requires StoresArePlacements(l, inputs, dim, outStrides, i)
    requires k < |l.inputs| && t < l.inputs[k].nElements
    ensures i + k < |inputs| && Shaped(inputs[i + k], dim, |outStrides|) && t < Numel(inputs[i + k])
    ensures Dest(l, k, t) == PlaceOffset(inputs, dim, outStrides, i + k, t)
  {
    var d := Dest(l, k, t);
  }

  /** A batch launch stores elements at their placements. */
  lemma LaunchPlacements<T>(l: Launch<T>, out: Tensor<T>, inputs: seq<Tensor<T>>, dim: nat, i: nat)
    requires CanCopy(out, inputs, dim) && BatchLaunch(l, out, inputs, dim, i)
    ensures StoresArePlacements(l, inputs, dim, out.strides, i)
  {
    forall k | 0 <= k < |l.inputs|
      ensures Ready(l, k)
    {
      DestIsPlacement(l, out, inputs, dim, i, k, 0);
    }
    forall k: nat, t: nat | k < |l.inputs| && t < l.inputs[k].nElements
      ensures && i + k < |inputs| && Shaped(inputs[i + k], dim, |out.strides|) && t < Numel(inputs[i + k])
              && Dest(l, k, t) == PlaceOffset(inputs, dim, out.strides, i + k, t)
    {
      DestIsPlacement(l, out, inputs, dim, i, k, t);
    }
  }

  /** Stores at placements land inside an output holding all its elements. */
  lemma LaunchInside<T>(l: Launch<T>, inputs: seq<Tensor<T>>, dim: nat, outSizes: seq<nat>, outStrides: seq<nat>, i: nat, len: nat)
    requires Fits(inputs, dim, outSizes, outStrides) && StoresArePlacements(l, inputs, dim, outStrides, i)
    requires Product(outSizes) <= len
    ensures Inside(l, len)
  {
    forall k: nat, t: nat | k < |l.inputs| && t < l.inputs[k].nElements
      ensures Dest(l, k, t) < len
    {
      StoreAt(l, inputs, dim, outStrides, i, k, t);
      PlacementInside(inputs, dim, outSizes, outStrides, i + k, t);
    }
  }

  /** Stores at placements never collide. */
  lemma LaunchDistinct<T>(l: Launch<T>, inputs: seq<Tensor<T>>, dim: nat, outSizes: seq<nat>, outStrides: seq<nat>, i: nat)
    requires Fits(inputs, dim, outSizes, outStrides) && StoresArePlacements(l, inputs, dim, outStrides, i)
    ensures Distinct(l)
  {
    forall k1: nat, t1: nat, k2: nat, t2: nat |
      k1 < |l.inputs| && t1 < l.inputs[k1].nElements && k2 < |l.inputs| && t2 < l.inputs[k2].nElements
      && Dest(l, k1, t1) == Dest(l, k2, t2)
      ensures k1 == k2 && t1 == t2
    {
      StoresDiffer(l, inputs, dim, outSizes, outStrides, i, k1, t1, k2, t2);
    }
  }

  /** Two stores of a launch whose stores are placements coincide only when
      they store the same element. */
  lemma StoresDiffer<T>(l: Launch<T>, inputs: seq<Tensor<T>>, dim: nat, outSizes: seq<nat>, outStrides: seq<nat>, i: nat,
                        k1: nat, t1: nat, k2: nat, t2: nat)
    requires Fits(inputs, dim, outSizes, outStrides) && StoresArePlacements(l, inputs, dim, outStrides, i)
    requires k1 < |l.inputs| && t1 < l.inputs[k1].nElements && k2 < |l.inputs| && t2 < l.inputs[k2].nElements
    ensures Dest(l, k1, t1) == Dest(l, k2, t2) ==> k1 == k2 && t1 == t2
  {
    StoreAt(l, inputs, dim, outStrides, i, k1, t1);
    StoreAt(l, inputs, dim, outStrides, i, k2, t2);
    if Dest(l, k1, t1) == Dest(l, k2, t2) {
      PlacementInjective(inputs, dim, outSizes, outStrides, i + k1, t1, i + k2, t2);
    }
  }

  /** A well-formed contiguous output's storage holds all its elements. */
  lemma OutputHoldsElements<T>(out: Tensor<T>)
    requires WellFormed(out) && IsContiguous(out)
    ensures Numel(out) <= |out.data|
  {
    if Numel(out) > 0 {
      ContiguousStorageIndex(out, Numel(out) - 1);
    }
  }

  /** The elements of a batch's inputs are at their placements after the launch. */
  lemma LaunchStores<T>(res: seq<T>, l: Launch<T>, out: Tensor<T>, inputs: seq<Tensor<T>>, dim: nat, i: nat)
    requires CanCopy(out, inputs, dim) && BatchLaunch(l, out, inputs, dim, i)
    requires Inside(l, |res|)
    requires forall b: nat, t: nat :: b < |l.inputs| && t < l.inputs[b].nElements ==> res[Dest(l, b, t)] == l.inputs[b].input[t]
    ensures forall j: nat, t: nat :: i <= j < i + |l.inputs| && j < |inputs| && Participates(inputs[j], dim, |out.strides|) && t < Numel(inputs[j]) ==>
              PlaceOffset(inputs, dim, out.strides, j, t) < |res|
              && res[PlaceOffset(inputs, dim, out.strides, j, t)] == ElementAt(inputs[j], t)
  {
    forall j: nat, t: nat | i <= j < i + |l.inputs| && j < |inputs| && Participates(inputs[j], dim, |out.strides|) && t < Numel(inputs[j])
      ensures PlaceOffset(inputs, dim, out.strides, j, t) < |res|
      ensures res[PlaceOffset(inputs, dim, out.strides, j, t)] == ElementAt(inputs[j], t)
    {
      var k := j - i;
      EntryInput(l, out, inputs, dim, i, k);
      StoreIsElement(res, l, out.sizes, out.strides, inputs, dim, i, k, t);
    }
  }

  /** One store of a batch launch: element `t` of the entry's input. */
  lemma StoreIsElement<T>(res: seq<T>, l: Launch<T>, outSizes: seq<nat>, outStrides: seq<nat>, inputs: seq<Tensor<T>>,
                          dim: nat, i: nat, k: nat, t: nat)
    requires k < |l.inputs| && Inside(l, |res|)
    requires t < l.inputs[k].nElements ==> res[Dest(l, k, t)] == l.inputs[k].input[t]
    requires l.os == OutputTensorSizeStride(outSizes, outStrides)
    requires l.concatDim == dim < |outSizes| == |outStrides| && l.dimStride == outStrides[dim]
    requires i + k < |inputs| && SameShapeExcept(inputs[i + k].sizes, outSizes, dim)
    requires WellFormed(inputs[i + k]) && IsContiguous(inputs[i + k])
    requires l.inputs[k] == CatArrInputTensor(inputs[i + k].data, SliceStart(inputs, dim, i + k),
                                              inputs[i + k].sizes[dim], Numel(inputs[i + k]))
    ensures t < Numel(inputs[i + k]) ==>
              PlaceOffset(inputs, dim, outStrides, i + k, t) < |res|
              && res[PlaceOffset(inputs, dim, outStrides, i + k, t)] == ElementAt(inputs[i + k], t)
  {
    EntryDest(l, outSizes, outStrides, inputs, dim, i, k, t);
    if t < Numel(inputs[i + k]) {
      ContiguousStorageIndex(inputs[i + k], t);
    }
  }

  /** A position the launch writes is the placement of an element of the batch. */
  lemma LaunchWrites<T>(l: Launch<T>, out: Tensor<T>, inputs: seq<Tensor<T>>, dim: nat, i: nat, p: nat)
    requires CanCopy(out, inputs, dim) && BatchLaunch(l, out, inputs, dim, i)
    requires Written(l, p)
    ensures exists j: nat, t: nat :: i <= j < i + |l.inputs| && j < |inputs| && Participates(inputs[j], dim, |out.strides|)
              && t < Numel(inputs[j]) && PlaceOffset(inputs, dim, out.strides, j, t) == p
  {
    var b: nat, t: nat :| b < |l.inputs| && t < l.inputs[b].nElements && Dest(l, b, t) == p;
    DestIsPlacement(l, out, inputs, dim, i, b, t);
    EntryInput(l, out, inputs, dim, i, b);
    assert Participates(inputs[i + b], dim, |out.strides|);
  }

  /** A batch launch meets the kernel's preconditions: its stores land inside
      the output and never collide. */
  lemma LaunchSafe<T>(l: Launch<T>, out: Tensor<T>, inputs: seq<Tensor<T>>, dim: nat, i: nat)
    requires CanCopy(out, inputs, dim) && BatchLaunch(l, out, inputs, dim, i)
    ensures Inside(l, |out.data|) && Distinct(l)
  {
    LaunchPlacements(l, out, inputs, dim, i);
    OutputHoldsElements(out);
    LaunchInside(l, inputs, dim, out.sizes, out.strides, i, |out.data|);
    LaunchDistinct(l, inputs, dim, out.sizes, out.strides, i);
  }

  /** What the kernel guarantees about a batch launch is that the batch's
      inputs are copied into the output. */
  lemma LaunchCopies<T>(res: seq<T>, prev: seq<T>, l: Launch<T>, out: Tensor<T>, inputs: seq<Tensor<T>>, dim: nat, i: nat)
    requires CanCopy(out, inputs, dim) && BatchLaunch(l, out, inputs, dim, i)
    requires |res| == |prev| && Inside(l, |res|)
    requires forall p :: 0 <= p < |prev| && !Written(l, p) ==> res[p] == prev[p]
    requires forall b: nat, t: nat :: b < |l.inputs| && t < l.inputs[b].nElements ==> res[Dest(l, b, t)] == l.inputs[b].input[t]
    ensures CopiedRange(res, prev, inputs, dim, out.strides, i, i + |l.inputs|)
  {
    LaunchStores(res, l, out, inputs, dim, i);
    forall p | 0 <= p < |prev| && Written(l, p)
      ensures exists j: nat, t: nat :: i <= j < i + |l.inputs| && j < |inputs| && Participates(inputs[j], dim, |out.strides|)
                && t < Numel(inputs[j]) && PlaceOffset(inputs, dim, out.strides, j, t) == p
    {
      LaunchWrites(l, out, inputs, dim, i, p);
    }
  }

  /** One iteration of the outer loop with a kernel launched: stage the batch
      starting at input `i`, copy it, and carry the offset on. */
  method CopyBatch<T>(prev: seq<T>, out: Tensor<T>, inputs: seq<Tensor<T>>, dimension: nat, i: nat, offset: nat, workers: nat)
    returns (res: seq<T>, next: nat)
    requires workers > 0 && i < |inputs| && |prev| == |out.data|
    requires CanCopy(out, inputs, dimension) && offset == SliceStart(inputs, dimension, i)
    ensures next == SliceStart(inputs, dimension, i + BatchLength(|inputs|, i))
    ensures CopiedRange(res, prev, inputs, dimension, out.strides, i, i + BatchLength(|inputs|, i))
  {
    CanCopyStageable(out, inputs, dimension);
    var stack;
    stack, next := StageBatch(inputs, dimension, i, offset);
    var param := OutputTensorSizeStride(out.sizes, out.strides);
    var l := Launch(stack, param, dimension, param.outputStride[dimension]);
    LaunchSafe(l, out, inputs, dimension, i);
    res := CatArrayBatchedCopy(prev, stack, param, dimension, param.outputStride[dimension], workers);
    LaunchCopies(res, prev, l, out, inputs, dimension, i);
  }

  /** The body of the outer loop, lines 173-218: stage the batch starting at
      input `i`, then launch the kernel for the output's rank (1, 2 or 3; any
      other rank launches nothing). */
  method BatchIteration<T>(prev: seq<T>, out: Tensor<T>, inputs: seq<Tensor<T>>, dimension: nat, nDims: nat,
                           i: nat, offset: nat, workers: nat)
    returns (res: seq<T>, next: nat)
    requires workers > 0 && i < |inputs| && nDims == |out.sizes| && |prev| == |out.data|
    requires CanCopy(out, inputs, dimension) && offset == SliceStart(inputs, dimension, i)
    requires nDims > CatArrayMaxInputDims ==> prev == out.data
    requires nDims <= CatArrayMaxInputDims ==> Placed(prev, out.data, inputs, dimension, out.strides, i)
    ensures next == SliceStart(inputs, dimension, i + BatchLength(|inputs|, i)) && |res| == |prev|
    ensures nDims > CatArrayMaxInputDims ==> res == out.data
    ensures nDims <= CatArrayMaxInputDims ==> Placed(res, out.data, inputs, dimension, out.strides, i + BatchLength(|inputs|, i))
  {
    if 1 <= nDims <= CatArrayMaxInputDims {
      res, next := CopyBatch(prev, out, inputs, dimension, i, offset, workers);
      PlacedExtend(res, prev, out.data, inputs, dimension, out.sizes, out.strides, i, i + BatchLength(|inputs|, i));
    } else {
      CanCopyStageable(out, inputs, dimension);
      var stack;
      stack, next := StageBatch(inputs, dimension, i, offset);
      res := prev;
    }
  }

  /** `parallel_cat`: the inputs in batches starting at 0, 1024, 2048, ..., the
      offset carried from batch to batch. The result is the concatenation when
      the output's rank selects a kernel, and the untouched output otherwise. */
  method ParallelCat<T>(out: Tensor<T>, inputs: seq<Tensor<T>>, dimension: nat, nDims: nat, workers: nat)
    returns (res: seq<T>)
    requires workers > 0 && nDims == |out.sizes|
    requires CanCopy(out, inputs, dimension)
    ensures nDims > CatArrayMaxInputDims ==> res == out.data
    ensures nDims <= CatArrayMaxInputDims ==> Placed(res, out.data, inputs, dimension, out.strides, |inputs|)
  {
    res := out.data;
    PlacedNone(out.data, inputs, dimension, out.strides);
    var offset := 0;
    var i := 0;
    ghost var done := 0;
    while i < |inputs|
      invariant done == Min(i, |inputs|)
      invariant offset == SliceStart(inputs, dimension, done) && |res| == |out.data|
      invariant nDims > CatArrayMaxInputDims ==> res == out.data
      invariant nDims <= CatArrayMaxInputDims ==> Placed(res, out.data, inputs, dimension, out.strides, done)
    {
      res, offset := BatchIteration(res, out, inputs, dimension, nDims, i, offset, workers);
      done := i + BatchLength(|inputs|, i);
      i := i + CatArrayBatchSize;
    }
  }
}
