/** The grid-stride loop both device kernels use: worker `w` of a launch with
    `step` workers handles the element indices w, w + step, w + 2*step, ... below
    the element count. */
module GridStride {
  import opened MixedRadix

  /** The indices below `n` that a worker starting at `first` visits. */
  function Visits(first: nat, step: nat, n: nat): (v: seq<nat>)
    requires step > 0
    ensures forall k :: 0 <= k < |v| ==> first <= v[k] < n
    ensures forall k, l :: 0 <= k < l < |v| ==> v[k] < v[l]
    decreases if first < n then n - first else 0
  {
    if first >= n then [] else [first] + Visits(first + step, step, n)
  }

  /** A worker visits exactly the indices below `n` at a whole number of steps
      from its start. */
  lemma {:induction false} VisitsExactly(first: nat, step: nat, n: nat, t: nat)
    requires step > 0
    ensures t in Visits(first, step, n) <==> first <= t < n && Rem(t - first, step) == 0
    decreases if first < n then n - first else 0
  {
    if first < n {
      VisitsExactly(first + step, step, n, t);
    }
  }

  /** A worker visits exactly the indices below `n` congruent to its start. */
  lemma VisitsMembers(first: nat, step: nat, n: nat, t: nat)
    requires step > 0
    ensures t in Visits(first, step, n) <==> first <= t < n && (t - first) % step == 0
  {
    VisitsExactly(first, step, n, t);
    if first <= t {
      QuotRemAreDivMod(t - first, step);
    }
  }

  /** Every index below `n` is handled by exactly one worker: the one numbered by
      its residue. */
  lemma ExactlyOneWorker(step: nat, n: nat, t: nat, w: nat)
    requires step > 0 && t < n && w < step
    ensures t in Visits(w, step, n) <==> w == t % step
  {
    VisitsExactly(w, step, n, t);
    ResidueOfStart(step, t, w);
    QuotRemAreDivMod(t, step);
  }

  /** A start below `step` reaches `t` in whole steps exactly when it is the
      remainder of `t`. */
  lemma ResidueOfStart(step: nat, t: nat, w: nat)
    requires step > 0 && w < step
    ensures w <= t && Rem(t - w, step) == 0 <==> w == Rem(t, step)
  {
    QuotRem(t, step);
    if w <= t {
      QuotRem(t - w, step);
      if Rem(t - w, step) == 0 {
        QuotRemOfComposition(Quot(t - w, step), step, w);
      }
    }
    if w == Rem(t, step) {
      QuotRemOfComposition(Quot(t, step), step, 0);
    }
  }

  /** The remainder never exceeds the dividend. */
  lemma {:induction false} RemAtMost(x: nat, q: nat)
    requires q > 0
    ensures Rem(x, q) <= x
    decreases x
  {
    if x >= q {
      RemAtMost(x - q, q);
    }
  }

  /** Two indices with the same remainder less than `q` apart coincide. */
  lemma SameRemainder(t: nat, u: nat, q: nat)
    requires q > 0 && Rem(t, q) == Rem(u, q) && t <= u < t + q
    ensures u == t
  {
    QuotRem(t, q);
    QuotRem(u, q);
    MulGap(Quot(t, q), Quot(u, q), q);
    MulMonotone(Quot(u, q), Quot(t, q), q);
  }
}
