/** The flag and shape logic around the oneMKL calls of BatchLinearAlgebra.cpp:
    the `jobz` letter `_svd_helper` derives from its flags, the `jobsvd` pair
    `apply_svd` derives from the letter, and the checks and output shapes of
    `_lu_with_info`. */
module LinAlgShapes {
  import opened Results

  /** oneMKL's `jobsvd`: no singular vectors, the leading min(m, n) of them, or all. */
  datatype JobSvd = NoVectors | SomeVectors | AllVectors

  /** Line 297: no vectors unless `compute_uv`; then the reduced set when `some`. */
  function Jobz(computeUv: bool, some: bool): (c: char)
    ensures c == 'N' <==> !computeUv
    ensures c == 'S' <==> computeUv && some
    ensures c == 'A' <==> computeUv && !some
  {
    if computeUv then (if some then 'S' else 'A') else 'N'
  }

  /** Lines 197-206: 'N' and 'S' select their own job for both U and VT; every
      other letter selects all vectors. */
  function SvdJobs(jobz: char): (jobs: (JobSvd, JobSvd))
    ensures jobs.0 == jobs.1
    ensures jobs.0 == NoVectors <==> jobz == 'N'
    ensures jobs.0 == SomeVectors <==> jobz == 'S'
  {
    if jobz == 'N' then (NoVectors, NoVectors)
    else if jobz == 'S' then (SomeVectors, SomeVectors)
    else (AllVectors, AllVectors)
  }

  /** The letter `_svd_helper` would pass for a job: the inverse of `SvdJobs`
      on the three letters `Jobz` produces. */
  function JobLetter(job: JobSvd): char
  {
    match job
    case NoVectors => 'N'
    case SomeVectors => 'S'
    case AllVectors => 'A'
  }

  /** From the flags to oneMKL: U and VT are requested exactly when
      `compute_uv` is set, reduced exactly when `some` is set too, and the
      letter in between round-trips. */
  lemma SvdJobsFollowFlags(computeUv: bool, some: bool)
    ensures var jobs := SvdJobs(Jobz(computeUv, some));
            && jobs.0 == jobs.1
            && (jobs.0 != NoVectors <==> computeUv)
            && (jobs.0 == SomeVectors <==> computeUv && some)
            && JobLetter(jobs.0) == Jobz(computeUv, some)
  {
  }

  /** Every job survives the trip through its letter. */
  lemma JobLetterRoundTrip(job: JobSvd)
    ensures SvdJobs(JobLetter(job)) == (job, job)
  {
  }

  /** The errors `_lu_with_info` raises before it factors anything. */
  datatype LuError = PivotRequired | TooFewDimensions | NotSquare

  /** The shapes of the three tensors `_lu_with_info` returns: the factors, the
      pivots and the infos. */
  datatype LuShapes = LuShapes(factors: seq<nat>, pivots: seq<nat>, infos: seq<nat>)

  /** Lines 256-267: pivoting is required, the input needs two dimensions and
      square matrices (the framework's `squareCheckInputs`); the pivots drop
      the last dimension and the infos the last two, and the factors keep the
      input's shape. */
  method LuWithInfoShapes(sizes: seq<nat>, pivot: bool) returns (r: Result<LuShapes, LuError>)
    ensures r == Err(PivotRequired) <==> !pivot
    ensures r == Err(TooFewDimensions) <==> pivot && |sizes| < 2
    ensures r == Err(NotSquare) <==> pivot && |sizes| >= 2 && sizes[|sizes| - 1] != sizes[|sizes| - 2]
    ensures r.Ok? ==> && r.value.factors == sizes
                      && r.value.pivots + [sizes[|sizes| - 1]] == sizes
                      && r.value.infos + [sizes[|sizes| - 2], sizes[|sizes| - 1]] == sizes
  {
    if !pivot {
      return Err(PivotRequired);
    }
    if |sizes| < 2 {
      return Err(TooFewDimensions);
    }
    if sizes[|sizes| - 1] != sizes[|sizes| - 2] {
      return Err(NotSquare);
    }
    var reqSize := sizes;
    reqSize := reqSize[..|reqSize| - 1];
    var pivots := reqSize;
    reqSize := reqSize[..|reqSize| - 1];
    var infos := reqSize;
    assert pivots + [sizes[|sizes| - 1]] == sizes;
    assert infos + [sizes[|sizes| - 2], sizes[|sizes| - 1]] == sizes;
    return Ok(LuShapes(sizes, pivots, infos));
  }
}
