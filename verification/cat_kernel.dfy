/** The fused concatenation kernel `CatArrayBatchedCopy`, executed
    sequentially: one row of work-groups per staged input descriptor, and in
    each row `workers` work-items that walk the input's elements in a
    grid-stride loop and store each one at its place in the output. */
module CatKernel {
  import opened MixedRadix
  import opened CatIndex
  import opened GridStride

  /** The descriptor staged for one input: its element storage (the data
      pointer), where its slice begins along the concat dimension, its extent
      there and its element count. */
  datatype CatArrInputTensor<T> = CatArrInputTensor(input: seq<T>, offset: nat, dimSize: nat, nElements: nat)

  /** The output's extents and strides, one per dimension the kernel handles. */
  datatype OutputTensorSizeStride = OutputTensorSizeStride(outputSize: seq<nat>, outputStride: seq<nat>)

  /** The arguments of one launch: the staged descriptors, the output's shape,
      the concat dimension and the output's stride along it. */
  datatype Launch<T> = Launch(inputs: seq<CatArrInputTensor<T>>, os: OutputTensorSizeStride, concatDim: nat, dimStride: nat)

  /** Descriptor `b` can be copied: its storage holds its elements, and the
      radices its indices are decomposed over are positive where the kernel
      divides by them. */
  predicate Ready<T>(l: Launch<T>, b: nat)
    requires b < |l.inputs|
  {
    var d := l.inputs[b];
    && 1 <= |l.os.outputSize| == |l.os.outputStride|
    && d.nElements <= |d.input|
    && (d.nElements > 0 ==> InnerPositive(Radices(l.os.outputSize, d.dimSize, l.concatDim)))
  }

  predicate AllReady<T>(l: Launch<T>)
  {
    forall b :: 0 <= b < |l.inputs| ==> Ready(l, b)
  }

  /** Where the kernel stores element `t` of descriptor `b`: the slice start
      times the stride along the concat dimension, plus the element's offset. */
  function Dest<T>(l: Launch<T>, b: nat, t: nat): nat
    requires b < |l.inputs| && Ready(l, b) && t < l.inputs[b].nElements
  {
    var d := l.inputs[b];
    d.offset * l.dimStride + Dot(Coordinates(l.os.outputSize, d.dimSize, l.concatDim, t), l.os.outputStride)
  }

  /** Every store lands inside an output storage of length `len`. */
  ghost predicate Inside<T>(l: Launch<T>, len: nat)
  {
    && AllReady(l)
    && forall b: nat, t: nat :: b < |l.inputs| && t < l.inputs[b].nElements ==> Dest(l, b, t) < len
  }

  /** No two elements are stored at the same position. */
  ghost predicate Distinct<T>(l: Launch<T>)
  {
    && AllReady(l)
    && forall b1: nat, t1: nat, b2: nat, t2: nat ::
         (b1 < |l.inputs| && t1 < l.inputs[b1].nElements && b2 < |l.inputs| && t2 < l.inputs[b2].nElements
          && Dest(l, b1, t1) == Dest(l, b2, t2)) ==> b1 == b2 && t1 == t2
  }

  /** Some element is stored at position `p`. */
  ghost predicate Written<T>(l: Launch<T>, p: nat)
  {
    && AllReady(l)
    && exists b: nat, t: nat :: b < |l.inputs| && t < l.inputs[b].nElements && Dest(l, b, t) == p
  }

  /** How far the sequential execution has got: all rows before `entry`; in
      row `entry` all work-items before `worker`; and of work-item `worker`
      the elements before `next`. */
  datatype Cursor = Cursor(entry: nat, worker: nat, next: nat)

  /** Element `t` of descriptor `b` is copied before the cursor. The work-item
      that copies it is the one numbered by its remainder modulo `workers`. */
  predicate Before<T>(l: Launch<T>, workers: nat, c: Cursor, b: nat, t: nat)
    requires workers > 0
  {
    && b < |l.inputs| && t < l.inputs[b].nElements
    && (b < c.entry
        || (b == c.entry
            && (Rem(t, workers) < c.worker || (Rem(t, workers) == c.worker && t < c.next))))
  }

  /** Two cursors that have copied the same elements. */
  ghost predicate SameBefore<T>(l: Launch<T>, workers: nat, c1: Cursor, c2: Cursor)
    requires workers > 0
  {
    forall b: nat, t: nat :: Before(l, workers, c1, b, t) <==> Before(l, workers, c2, b, t)
  }

  /** `res` is the output storage once everything before the cursor is copied:
      positions no copied element is stored at still hold `output`, and when
      stores do not collide every copied element is at its place. */
  ghost predicate Copied<T>(res: seq<T>, output: seq<T>, l: Launch<T>, workers: nat, c: Cursor)
    requires workers > 0 && Inside(l, |output|)
  {
    && |res| == |output|
    && (forall p :: 0 <= p < |output|
          && (forall b: nat, t: nat :: Before(l, workers, c, b, t) ==> Dest(l, b, t) != p)
          ==> res[p] == output[p])
    && (Distinct(l) ==> forall b: nat, t: nat :: Before(l, workers, c, b, t) ==>
          res[Dest(l, b, t)] == l.inputs[b].input[t])
  }

  lemma Reposition<T>(res: seq<T>, output: seq<T>, l: Launch<T>, workers: nat, c1: Cursor, c2: Cursor)
    requires workers > 0 && Inside(l, |output|)
    requires Copied(res, output, l, workers, c1) && SameBefore(l, workers, c1, c2)
    ensures Copied(res, output, l, workers, c2)
  {
  }

  /** Nothing is copied before the first row. */
  lemma StartCopied<T>(output: seq<T>, l: Launch<T>, workers: nat)
    requires workers > 0 && Inside(l, |output|)
    ensures Copied(output, output, l, workers, Cursor(0, 0, 0))
  {
  }

  /** A work-item copies no element below its own number. */
  lemma ChainStart<T>(l: Launch<T>, workers: nat, b: nat, tid: nat)
    requires workers > 0
    ensures SameBefore(l, workers, Cursor(b, tid, 0), Cursor(b, tid, tid))
  {
    forall t: nat
      ensures Rem(t, workers) == tid ==> tid <= t
    {
      RemAtMost(t, workers);
    }
  }

  /** A work-item whose next index is past the element count has copied all of
      its elements. */
  lemma ChainEnd<T>(l: Launch<T>, workers: nat, b: nat, tid: nat, next: nat)
    requires workers > 0 && b < |l.inputs| && next >= l.inputs[b].nElements
    ensures SameBefore(l, workers, Cursor(b, tid, next), Cursor(b, tid + 1, 0))
  {
  }

  /** After the last work-item of a row every element of the row is copied. */
  lemma RowEnd<T>(l: Launch<T>, workers: nat, b: nat)
    requires workers > 0
    ensures SameBefore(l, workers, Cursor(b, workers, 0), Cursor(b + 1, 0, 0))
  {
    forall t: nat
      ensures Rem(t, workers) < workers
    {
      QuotRem(t, workers);
    }
  }

  /** One store of the grid-stride loop extends the copied elements by exactly
      the element stored. */
  lemma CopyStep<T>(res: seq<T>, output: seq<T>, l: Launch<T>, workers: nat, b: nat, tid: nat, next: nat, pos: nat, v: T)
    requires workers > 0 && Inside(l, |output|)
    requires b < |l.inputs| && next < l.inputs[b].nElements && Rem(next, workers) == tid
    requires Copied(res, output, l, workers, Cursor(b, tid, next))
    requires pos == Dest(l, b, next) && v == l.inputs[b].input[next]
    ensures Copied(res[pos := v], output, l, workers, Cursor(b, tid, next + workers))
  {
    var c, c' := Cursor(b, tid, next), Cursor(b, tid, next + workers);
    forall b2: nat, t2: nat
      ensures Before(l, workers, c', b2, t2) <==> Before(l, workers, c, b2, t2) || (b2 == b && t2 == next)
    {
      if b2 == b && Rem(t2, workers) == tid && next <= t2 < next + workers {
        SameRemainder(next, t2, workers);
      }
    }
  }

  /** The body of one work-item, lines 111-135 of the kernel: nothing to do
      when its number is at least the element count, otherwise the
      grid-stride loop. */
  method WorkItem<T>(out: seq<T>, ghost output: seq<T>, l: Launch<T>, workers: nat, b: nat, tid: nat)
    returns (res: seq<T>)
    requires workers > 0 && tid < workers && b < |l.inputs| && Inside(l, |output|)
    requires Copied(out, output, l, workers, Cursor(b, tid, 0))
    ensures Copied(res, output, l, workers, Cursor(b, tid + 1, 0))
    ensures tid >= l.inputs[b].nElements ==> res == out
  {
    ChainStart(l, workers, b, tid);
    Reposition(out, output, l, workers, Cursor(b, tid, 0), Cursor(b, tid, tid));
    if tid >= l.inputs[b].nElements {
      ChainEnd(l, workers, b, tid, tid);
      Reposition(out, output, l, workers, Cursor(b, tid, tid), Cursor(b, tid + 1, 0));
      return out;
    }
    RemBelow(tid, workers);
    res := GridStrideLoop(out, output, l, workers, b, tid);
  }

  /** The work-item `Before` credits with element `t` is the one whose
      grid-stride sequence tid, tid + workers, ... reaches `t`; so every
      element below the count is copied by exactly one work-item. */
  lemma CopiedByVisitor(workers: nat, n: nat, t: nat, tid: nat)
    requires workers > 0 && t < n && tid < workers
    ensures t in Visits(tid, workers, n) <==> Rem(t, workers) == tid
  {
    VisitsExactly(tid, workers, n, t);
    ResidueOfStart(workers, t, tid);
  }

  /** The remainder of a number below the divisor is the number itself. */
  lemma RemBelow(x: nat, q: nat)
    requires x < q
    ensures Rem(x, q) == x
  {
  }

  /** The grid-stride loop of work-item `tid`: elements tid, tid + workers, ...
      below the element count, each stored at the slice's data offset plus the
      offset `CatArrIndexToOffset` computes. */
  method GridStrideLoop<T>(out: seq<T>, ghost output: seq<T>, l: Launch<T>, workers: nat, b: nat, tid: nat)
    returns (res: seq<T>)
    requires workers > 0 && b < |l.inputs| && Inside(l, |output|) && Rem(tid, workers) == tid
    requires Copied(out, output, l, workers, Cursor(b, tid, tid))
    ensures Copied(res, output, l, workers, Cursor(b, tid + 1, 0))
  {
    res := out;
    var nElements := l.inputs[b].nElements;
    var stride := workers;
    var t := tid;
    while t < nElements
      invariant Rem(t, workers) == tid
      invariant Copied(res, output, l, workers, Cursor(b, tid, t))
    {
      res := StoreElement(res, output, l, workers, b, tid, t);
      t := t + stride;
    }
    ChainEnd(l, workers, b, tid, t);
    Reposition(res, output, l, workers, Cursor(b, tid, t), Cursor(b, tid + 1, 0));
  }

  /** One iteration of the grid-stride loop: element `t` of descriptor `b`
      stored at the slice's data offset plus the offset `CatArrIndexToOffset`
      computes for it. */
  method StoreElement<T>(out: seq<T>, ghost output: seq<T>, l: Launch<T>, workers: nat, b: nat, tid: nat, t: nat)
    returns (res: seq<T>)
    requires workers > 0 && b < |l.inputs| && Inside(l, |output|)
    requires t < l.inputs[b].nElements && Rem(t, workers) == tid
    requires Copied(out, output, l, workers, Cursor(b, tid, t))
    ensures Rem(t + workers, workers) == tid
    ensures Copied(res, output, l, workers, Cursor(b, tid, t + workers))
  {
    StoreInside(out, output, l, workers, b, tid, t);
    var data := l.inputs[b].input;
    var dataOffset := l.inputs[b].offset * l.dimStride;
    var elementOffset := IndexToOffset(l.os.outputSize, l.os.outputStride, l.inputs[b].dimSize, l.concatDim, t);
    CopyStep(out, output, l, workers, b, tid, t, dataOffset + elementOffset, data[t]);
    res := out[dataOffset + elementOffset := data[t]];
  }

  /** What one iteration of the grid-stride loop needs: the descriptor is ready,
      the element exists in its storage, and its destination is inside `res`. */
  lemma StoreInside<T>(res: seq<T>, output: seq<T>, l: Launch<T>, workers: nat, b: nat, tid: nat, t: nat)
    requires workers > 0 && b < |l.inputs| && Inside(l, |output|) && t < l.inputs[b].nElements
    requires Copied(res, output, l, workers, Cursor(b, tid, t))
    ensures 1 <= |l.os.outputSize| == |l.os.outputStride|
    ensures InnerPositive(Radices(l.os.outputSize, l.inputs[b].dimSize, l.concatDim))
    ensures t < |l.inputs[b].input| && Dest(l, b, t) < |res|
    ensures Rem(t + workers, workers) == Rem(t, workers)
  {
    assert Ready(l, b);
  }

  /** One row of work-groups: the work-items 0 .. workers - 1 of descriptor `b`. */
  method CopyRow<T>(out: seq<T>, ghost output: seq<T>, l: Launch<T>, workers: nat, b: nat)
    returns (res: seq<T>)
    requires workers > 0 && b < |l.inputs| && Inside(l, |output|)
    requires Copied(out, output, l, workers, Cursor(b, 0, 0))
    ensures Copied(res, output, l, workers, Cursor(b + 1, 0, 0))
  {
    res := out;
    var tid := 0;
    while tid < workers
      invariant tid <= workers
      invariant Copied(res, output, l, workers, Cursor(b, tid, 0))
    {
      res := WorkItem(res, output, l, workers, b, tid);
      tid := tid + 1;
    }
    RowEnd(l, workers, b);
    Reposition(res, output, l, workers, Cursor(b, workers, 0), Cursor(b + 1, 0, 0));
  }

  /** `CatArrayBatchedCopy`: every element of every staged input is stored at
      its destination (when no two destinations collide) and nothing else in
      the output changes. */
  method CatArrayBatchedCopy<T>(output: seq<T>, inputs: seq<CatArrInputTensor<T>>, os: OutputTensorSizeStride,
                                concatDim: nat, dimStride: nat, workers: nat)
    returns (res: seq<T>)
    requires workers > 0 && Inside(Launch(inputs, os, concatDim, dimStride), |output|)
    ensures |res| == |output|
    ensures forall p :: 0 <= p < |output| && !Written(Launch(inputs, os, concatDim, dimStride), p) ==> res[p] == output[p]
    ensures Distinct(Launch(inputs, os, concatDim, dimStride)) ==>
              forall b: nat, t: nat :: b < |inputs| && t < inputs[b].nElements ==>
                res[Dest(Launch(inputs, os, concatDim, dimStride), b, t)] == inputs[b].input[t]
  {
    var l := Launch(inputs, os, concatDim, dimStride);
    StartCopied(output, l, workers);
    res := output;
    var b := 0;
    while b < |inputs|
      invariant b <= |inputs|
      invariant Copied(res, output, l, workers, Cursor(b, 0, 0))
    {
      res := CopyRow(res, output, l, workers, b);
      b := b + 1;
    }
    assert forall b2: nat, t2: nat :: b2 < |inputs| && t2 < inputs[b2].nElements ==> Before(l, workers, Cursor(|inputs|, 0, 0), b2, t2);
  }
}
