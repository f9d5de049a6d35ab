/** Consistency check of computed solutions and synthetic TDoA generation.

    Euclidean distance needs a square root, which `real` lacks, so both
    operations take the distance as a function `dist`; `Euclidean` states
    what the proofs may assume of it. Random noise is an input vector. */
module Verify {
  import opened Errors
  import opened LinAlg
  import opened Constants

  /** The largest magnitude of the reference-entry TDoA a solution may imply. */
  const Tolerance: real := 0.000000000001

  /** `dist` is the Euclidean distance: non-negative, with the squared
      length of the difference as its square. */
  ghost predicate Euclidean(dist: (Vec3, Vec3) -> real) {
    forall a, b :: dist(a, b) >= 0.0 && dist(a, b) * dist(a, b) == Norm2(Sub(a, b))
  }

  function Abs(x: real): real {
    if x < 0.0 then -x else x
  }

  /** The TDoA that solution `sol` with reference range `root` implies for
      a satellite at `sat`. */
  function ImpliedTdoa(sat: Vec3, sol: Vec3, root: real, dist: (Vec3, Vec3) -> real): real {
    (dist(sat, sol) - root) / SpeedOfLight
  }

  /** Relative error of an implied TDoA against an observed one; a zero
      observation has no finite relative error. */
  function RelativeError(implied: real, observed: real): (r: Option<real>)
    ensures r.None? <==> observed == 0.0
    ensures r.Some? ==> r.value * observed == implied - observed
  {
    if observed == 0.0 then None else Some((implied - observed) / observed)
  }

  /** Some solution implies a reference TDoA farther from zero than the
      tolerance. */
  predicate ReferenceFails(sats: seq<Vec3>, roots: seq<real>, sols: seq<Vec3>, dist: (Vec3, Vec3) -> real)
    requires |sats| > 0 && |roots| >= |sols|
  {
    exists i :: 0 <= i < |sols| && Abs(ImpliedTdoa(sats[0], sols[i], roots[i], dist)) > Tolerance
  }

  /** `solution_error`: the implied TDoA of every solution at every
      satellite, the reference check, then the relative error of every
      non-reference entry. */
  function SolutionError(sats: seq<Vec3>, roots: seq<real>, sols: seq<Vec3>, tdoa: seq<real>,
                         dist: (Vec3, Vec3) -> real): (r: Result<seq<seq<Option<real>>>>)
    requires |tdoa| == |sats|
    ensures r.Err? && r.error == IndexOutOfRange <==> |roots| < |sols| || |sols| == 0 || |sats| == 0
    ensures r.Err? ==> r.error in {IndexOutOfRange, InvalidSolution}
    ensures r.Err? && r.error == InvalidSolution <==>
              |roots| >= |sols| > 0 && |sats| > 0 && ReferenceFails(sats, roots, sols, dist)
    ensures r.Ok? ==> |r.value| == |sols|
    ensures r.Ok? ==> forall i :: 0 <= i < |sols| ==>
              |r.value[i]| == |sats| - 1 &&
              forall j :: 0 <= j < |sats| - 1 ==>
                r.value[i][j] == RelativeError(ImpliedTdoa(sats[j + 1], sols[i], roots[i], dist), tdoa[j + 1])
  {
    if |roots| < |sols| || |sols| == 0 || |sats| == 0 then
      Err(IndexOutOfRange)
    else if ReferenceFails(sats, roots, sols, dist) then
      Err(InvalidSolution)
    else
      Ok(seq(|sols|, i requires 0 <= i < |sols| =>
        seq(|sats| - 1, j requires 0 <= j < |sats| - 1 =>
          RelativeError(ImpliedTdoa(sats[j + 1], sols[i], roots[i], dist), tdoa[j + 1]))))
  }

  /** A solution at range exactly `root` from the reference satellite, and
      at range `root + c * tdoa[j]` from every other satellite, passes the
      check with zero relative error wherever the observation is nonzero. */
  lemma ConsistentSolutionsPass(sats: seq<Vec3>, roots: seq<real>, sols: seq<Vec3>, tdoa: seq<real>,
                                dist: (Vec3, Vec3) -> real)
    requires |tdoa| == |sats| > 0 && |roots| >= |sols| > 0
    requires forall i :: 0 <= i < |sols| ==> dist(sats[0], sols[i]) == roots[i]
    requires forall i, j :: 0 <= i < |sols| && 0 < j < |sats| ==>
               dist(sats[j], sols[i]) == roots[i] + tdoa[j] * SpeedOfLight
    ensures SolutionError(sats, roots, sols, tdoa, dist).Ok?
    ensures forall i, j :: 0 <= i < |sols| && 0 <= j < |sats| - 1 && tdoa[j + 1] != 0.0 ==>
              SolutionError(sats, roots, sols, tdoa, dist).value[i][j] == Some(0.0)
  {
    forall i | 0 <= i < |sols|
      ensures Abs(ImpliedTdoa(sats[0], sols[i], roots[i], dist)) <= Tolerance
    {
    }
    var r := SolutionError(sats, roots, sols, tdoa, dist);
    forall i, j | 0 <= i < |sols| && 0 <= j < |sats| - 1 && tdoa[j + 1] != 0.0
      ensures r.value[i][j] == Some(0.0)
    {
      assert ImpliedTdoa(sats[j + 1], sols[i], roots[i], dist) == tdoa[j + 1];
    }
  }

  /** `generate_TDOA` for an emitter already in cartesian coordinates: the
      range difference to the reference satellite over the speed of light,
      plus noise whose entry 0 is overwritten with zero. */
  function GenerateTdoa(sats: seq<Vec3>, emitter: Vec3, noise: seq<real>, dist: (Vec3, Vec3) -> real)
    : (r: Result<seq<real>>)
    requires |noise| == |sats|
    ensures r.Ok? <==> |sats| > 0
    ensures r.Err? ==> r.error == IndexOutOfRange
    ensures r.Ok? ==> |r.value| == |sats| && r.value[0] == 0.0
    ensures r.Ok? ==> forall i :: 0 < i < |sats| ==>
              r.value[i] - noise[i] == (dist(sats[i], emitter) - dist(sats[0], emitter)) / SpeedOfLight
  {
    if |sats| == 0 then
      Err(IndexOutOfRange)
    else
      var clean := seq(|sats|, i requires 0 <= i < |sats| =>
                         (dist(sats[i], emitter) - dist(sats[0], emitter)) / SpeedOfLight);
      var forced := [0.0] + noise[1..];
      Ok(seq(|sats|, i requires 0 <= i < |sats| => clean[i] + forced[i]))
  }

  /** Without noise, `c * tdoa[i]` is exactly the range difference. */
  lemma NoiselessRanges(sats: seq<Vec3>, emitter: Vec3, noise: seq<real>, dist: (Vec3, Vec3) -> real)
    requires |noise| == |sats| > 0
    requires forall i :: 0 <= i < |noise| ==> noise[i] == 0.0
    ensures forall i :: 0 <= i < |sats| ==>
              GenerateTdoa(sats, emitter, noise, dist).value[i] * SpeedOfLight
                == dist(sats[i], emitter) - dist(sats[0], emitter)
  {
  }

  /** The true emitter, with its true reference range, passes the check
      against noiseless generated TDoA, with zero relative error wherever
      the generated entry is nonzero. */
  lemma TrueEmitterPasses(sats: seq<Vec3>, emitter: Vec3, noise: seq<real>, dist: (Vec3, Vec3) -> real)
    requires |noise| == |sats| > 0
    requires forall i :: 0 <= i < |noise| ==> noise[i] == 0.0
    ensures SolutionError(sats, [dist(sats[0], emitter)], [emitter],
                          GenerateTdoa(sats, emitter, noise, dist).value, dist).Ok?
  {
    var tdoa := GenerateTdoa(sats, emitter, noise, dist).value;
    NoiselessRanges(sats, emitter, noise, dist);
    ConsistentSolutionsPass(sats, [dist(sats[0], emitter)], [emitter], tdoa, dist);
  }
}
