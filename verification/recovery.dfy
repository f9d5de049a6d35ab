/** What the three-satellite solve computes, stated against the geometry it
    comes from.

    A point theta on the sphere |theta| = R, at squared range r1^2 from the
    reference satellite and at squared range (r1 + d_i)^2 from satellite i,
    is exactly a solution of the linear system G1 * theta = h * [1, r1, r1^2].
    From that: every position the solver returns lies on the sphere, is at
    range equal to its root from the reference satellite (so the consistency
    check cannot fail) and at range |root + d_i| from satellite i; and,
    given a complete root finder, an invertible G1 and an emitter at nonzero
    range from the reference satellite, the true emitter is among the
    returned positions, also when the TDoA was generated from it. Squaring
    loses the sign of root + d_i, so positions whose range differences have
    the wrong sign are returned too. */
module Recovery {
  import opened Errors
  import opened LinAlg
  import opened Poly
  import opened Constants
  import opened MeasurementSystem
  import opened Verify
  import opened Solver

  /** The design matrix the three-satellite path inverts. */
  function G1Of(s: System): Mat3
    requires |s.sats| == 3
  {
    G1Three(s.sats[0].pos, s.sats[1].pos, s.sats[2].pos)
  }

  /** The `h` matrix of the three-satellite path. */
  function HOf(s: System): Mat3
    requires WellFormed(s) && TdoaOnly(s) && |s.sats| == 3 && s.rEmitter.Some?
  {
    HThree(s.sats[0].pos, s.sats[1].pos, s.sats[2].pos, s.rEmitter.value,
           RangeDiff(s.tdoa.value, 1), RangeDiff(s.tdoa.value, 2))
  }

  lemma DotScaledDiff(si: Vec3, s1: Vec3, theta: Vec3)
    ensures Dot(Scale(-2.0, Sub(si, s1)), theta) == -2.0 * Dot(theta, si) + 2.0 * Dot(theta, s1)
  {
  }

  lemma SquareSum(a: real, b: real)
    ensures (a + b) * (a + b) == a * a + 2.0 * a * b + b * b
  {
  }

  /** Row 1 of the linear system, on the sphere |theta| = R, says exactly
      that theta is at range r1 from the reference satellite. */
  lemma ReferenceRow(s1: Vec3, theta: Vec3, rEmitter: real, r1: real)
    requires Norm2(theta) == rEmitter * rEmitter
    ensures Dot(Scale(-2.0, s1), theta) == Dot(Vec3(-(rEmitter * rEmitter) - Norm2(s1), 0.0, 1.0), Lift(r1))
            <==> Norm2(Sub(theta, s1)) == r1 * r1
  {
    NormSubExpand(theta, s1);
    ScaleDot(s1, theta, -2.0);
    DotComm(s1, theta);
  }

  /** Row i of the linear system, given the reference range r1, says exactly
      that theta is at squared range (r1 + d)^2 from satellite i. */
  lemma OtherRow(s1: Vec3, si: Vec3, theta: Vec3, r1: real, d: real)
    requires Norm2(Sub(theta, s1)) == r1 * r1
    ensures Dot(Scale(-2.0, Sub(si, s1)), theta) == Dot(Vec3(d * d - Norm2(si) + Norm2(s1), 2.0 * d, 0.0), Lift(r1))
            <==> Norm2(Sub(theta, si)) == (r1 + d) * (r1 + d)
  {
    NormSubExpand(theta, s1);
    NormSubExpand(theta, si);
    DotScaledDiff(si, s1, theta);
    SquareSum(r1, d);
  }

  /** The linear system of the three-satellite path, on the sphere
      |theta| = R, is equivalent to the three squared range equations. */
  lemma LinearSystemIff(s1: Vec3, s2: Vec3, s3: Vec3, theta: Vec3, rEmitter: real, r1: real, d2: real, d3: real)
    requires Norm2(theta) == rEmitter * rEmitter
    ensures MatVec(G1Three(s1, s2, s3), theta) == MatVec(HThree(s1, s2, s3, rEmitter, d2, d3), Lift(r1))
            <==> Norm2(Sub(theta, s1)) == r1 * r1
                 && Norm2(Sub(theta, s2)) == (r1 + d2) * (r1 + d2)
                 && Norm2(Sub(theta, s3)) == (r1 + d3) * (r1 + d3)
  {
    var g := G1Three(s1, s2, s3);
    var h := HThree(s1, s2, s3, rEmitter, d2, d3);
    ReferenceRow(s1, theta, rEmitter, r1);
    DotComm(g.r0, theta);
    DotComm(g.r1, theta);
    DotComm(g.r2, theta);
    if Norm2(Sub(theta, s1)) == r1 * r1 {
      OtherRow(s1, s2, theta, r1, d2);
      OtherRow(s1, s3, theta, r1, d3);
    }
  }

  /** The only entry of column 2 of h that is nonzero is the 1 in row 1, so
      column 2 of M = inverse(G1) * h is column 0 of the inverse. */
  lemma LeadingColumn(inv: Mat3, h: Mat3)
    requires h.r0.z == 1.0 && h.r1.z == 0.0 && h.r2.z == 0.0
    ensures var p := MatMul(inv, h);
            p.r0.z == inv.r0.x && p.r1.z == inv.r1.x && p.r2.z == inv.r2.x
  {
  }

  /** Sign facts about squares are stated against a bound `lo <= 0` rather
      than against the literal zero, and the squares are proved through
      products of two factors: the SMT solver's simplifier rewrites
      comparisons of a literal square with zero into facts about the base
      and loses them. */
  lemma ProductOfPositives(a: real, b: real, lo: real)
    requires lo <= 0.0 && a > 0.0 && b > 0.0
    ensures a * b > lo
  {
  }

  lemma ProductOfNegatives(a: real, b: real, lo: real)
    requires lo <= 0.0 && a < 0.0 && b < 0.0
    ensures a * b > lo
  {
  }

  /** A square is at least every non-positive bound, and strictly above it
      when the base is nonzero. */
  lemma SquareAbove(a: real, lo: real)
    requires lo <= 0.0
    ensures a * a >= lo
    ensures a != 0.0 ==> a * a > lo
  {
    if a > 0.0 {
      ProductOfPositives(a, a, lo);
    } else if a < 0.0 {
      ProductOfNegatives(a, a, lo);
    }
  }

  /** A sum of three squares, not all of zero bases, is above every
      non-positive bound. */
  lemma SumOfSquaresAbove(a: real, b: real, c: real, lo: real)
    requires lo <= 0.0
    requires a != 0.0 || b != 0.0 || c != 0.0
    ensures a * a + b * b + c * c > lo
  {
    SquareAbove(a, lo);
    SquareAbove(b, lo);
    SquareAbove(c, lo);
  }

  /** A right inverse has a nonzero column 0: G1 times it has a 1 in the
      top-left corner. */
  lemma InverseColumnNonzero(g: Mat3, inv: Mat3)
    requires MatMul(g, inv) == Diag(1.0)
    ensures inv.r0.x != 0.0 || inv.r1.x != 0.0 || inv.r2.x != 0.0
  {
    assert MatMul(g, inv).r0.x == Dot(g.r0, Vec3(inv.r0.x, inv.r1.x, inv.r2.x));
  }

  /** When G1 is invertible the leading coefficient is positive: the root
      finder is always handed a true quartic. */
  lemma LeadingCoefficientPositive(g: Mat3, inv: Mat3, h: Mat3, rEmitter: real)
    requires MatMul(g, inv) == Diag(1.0)
    requires h.r0.z == 1.0 && h.r1.z == 0.0 && h.r2.z == 0.0
    ensures Coefficients(MatMul(inv, h), rEmitter)[0] > 0.0
  {
    var p := MatMul(inv, h);
    LeadingColumn(inv, h);
    InverseColumnNonzero(g, inv);
    SumOfSquaresAbove(p.r0.z, p.r1.z, p.r2.z, 0.0);
  }

  /** A non-negative number whose square is r^2, for r >= 0, is r. */
  lemma RootOfSquare(x: real, r: real)
    requires x >= 0.0 && r >= 0.0 && x * x == r * r
    ensures x == r
  {
    var t := x + r;
    assert (x - r) * t == x * x - r * r;
    if t != 0.0 {
      assert x - r == ((x - r) * t) / t;
    }
  }

  /** Each position built from a root of the quartic lies on the sphere of
      radius R and solves the linear system G1 * p = h * [1, r, r^2]. */
  lemma CandidateOnSphere(g: Mat3, inv: Mat3, h: Mat3, rEmitter: real, r: real)
    requires MatMul(g, inv) == Diag(1.0)
    requires EvalPoly(Coefficients(MatMul(inv, h), rEmitter), r) == 0.0
    ensures Norm2(MatVec(MatMul(inv, h), Lift(r))) == rEmitter * rEmitter
    ensures MatVec(g, MatVec(MatMul(inv, h), Lift(r))) == MatVec(h, Lift(r))
  {
    QuarticIdentity(MatMul(inv, h), rEmitter, r);
    MatVecMatMul(inv, h, Lift(r));
    LeftCancel(g, inv, MatVec(h, Lift(r)));
  }

  /** The configuration the closed-form path solves: TDoA only, three
      satellites, known emitter radius. */
  ghost predicate Solvable(s: System) {
    WellFormed(s) && TdoaOnly(s) && |s.sats| == 3 && s.rEmitter.Some?
  }

  /** M = inverse(G1) * h for a solvable system with an invertible G1. */
  function MOf(s: System): Mat3
    requires Solvable(s) && Det(G1Of(s)) != 0.0
  {
    MatMul(Inverse(G1Of(s)).value, HOf(s))
  }

  /** The positive roots the solver keeps. */
  function CandidateRoots(s: System, rootsOf: seq<real> -> seq<real>): seq<real>
    requires Solvable(s) && Det(G1Of(s)) != 0.0
  {
    Positive(rootsOf(Coefficients(MOf(s), s.rEmitter.value)))
  }

  /** `Solve` on a solvable system, step by step. */
  lemma SolveUnfold(s: System, rootsOf: seq<real> -> seq<real>, dist: (Vec3, Vec3) -> real)
    requires Solvable(s)
    ensures Det(G1Of(s)) == 0.0 ==> Solve(s, rootsOf, dist) == Err(SingularMatrix)
    ensures Det(G1Of(s)) != 0.0 ==>
              var roots := CandidateRoots(s, rootsOf);
              var positions := Positions(MOf(s), roots);
              var check := SolutionError(SatPositions(s), roots, positions, s.tdoa.value, dist);
              Solve(s, rootsOf, dist)
                == if |roots| == 0 then Err(ShapeMismatch)
                   else if check.Err? then Err(check.error)
                   else Ok(Solution(roots, positions))
  {
  }

  /** Position p is on the sphere of radius R, at range r from the
      reference satellite s1, and at squared range (r + d_i)^2 from
      satellite i. */
  ghost predicate Fits(s1: Vec3, s2: Vec3, s3: Vec3, rEmitter: real, d2: real, d3: real,
                       r: real, p: Vec3, dist: (Vec3, Vec3) -> real)
  {
    && Norm2(p) == rEmitter * rEmitter
    && dist(s1, p) == r
    && Norm2(Sub(p, s2)) == (r + d2) * (r + d2)
    && Norm2(Sub(p, s3)) == (r + d3) * (r + d3)
  }

  /** `Fits` for the geometry and measurements of a solvable system. */
  ghost predicate FitsSystem(s: System, r: real, p: Vec3, dist: (Vec3, Vec3) -> real)
    requires Solvable(s)
  {
    Fits(s.sats[0].pos, s.sats[1].pos, s.sats[2].pos, s.rEmitter.value,
         RangeDiff(s.tdoa.value, 1), RangeDiff(s.tdoa.value, 2), r, p, dist)
  }

  /** Every positive root of the quartic yields a position that fits the
      measurements. */
  lemma CandidateFacts(s1: Vec3, s2: Vec3, s3: Vec3, inv: Mat3, rEmitter: real, d2: real, d3: real,
                       r: real, dist: (Vec3, Vec3) -> real)
    requires MatMul(G1Three(s1, s2, s3), inv) == Diag(1.0)
    requires EvalPoly(Coefficients(MatMul(inv, HThree(s1, s2, s3, rEmitter, d2, d3)), rEmitter), r) == 0.0
    requires r > 0.0 && Euclidean(dist)
    ensures Fits(s1, s2, s3, rEmitter, d2, d3, r,
                 MatVec(MatMul(inv, HThree(s1, s2, s3, rEmitter, d2, d3)), Lift(r)), dist)
  {
    var g := G1Three(s1, s2, s3);
    var h := HThree(s1, s2, s3, rEmitter, d2, d3);
    var p := MatVec(MatMul(inv, h), Lift(r));
    CandidateOnSphere(g, inv, h, rEmitter, r);
    LinearSystemIff(s1, s2, s3, p, rEmitter, r, d2, d3);
    NormSubSymmetric(s1, p);
    RootOfSquare(dist(s1, p), r);
  }

  /** Solutions at range exactly their root from the reference satellite
      imply a zero reference TDoA. */
  lemma ReferencePasses(sats: seq<Vec3>, roots: seq<real>, sols: seq<Vec3>, dist: (Vec3, Vec3) -> real)
    requires |sats| > 0 && |roots| == |sols|
    requires forall i :: 0 <= i < |sols| ==> dist(sats[0], sols[i]) == roots[i]
    ensures !ReferenceFails(sats, roots, sols, dist)
  {
    forall i | 0 <= i < |sols|
      ensures Abs(ImpliedTdoa(sats[0], sols[i], roots[i], dist)) <= Tolerance
    {
    }
  }

  /** The facts of `CandidateFacts` for retained root i of a system. */
  lemma RootFacts(s: System, rootsOf: seq<real> -> seq<real>, dist: (Vec3, Vec3) -> real, i: nat)
    requires Solvable(s) && Det(G1Of(s)) != 0.0
    requires RootsSound(rootsOf) && Euclidean(dist)
    requires i < |CandidateRoots(s, rootsOf)|
    ensures FitsSystem(s, CandidateRoots(s, rootsOf)[i], MatVec(MOf(s), Lift(CandidateRoots(s, rootsOf)[i])), dist)
  {
    var inv := Inverse(G1Of(s)).value;
    var rEmitter := s.rEmitter.value;
    var cs := Coefficients(MOf(s), rEmitter);
    var r := CandidateRoots(s, rootsOf)[i];
    assert r in rootsOf(cs) && r > 0.0;
    assert EvalPoly(cs, r) == 0.0;
    var s1, s2, s3 := s.sats[0].pos, s.sats[1].pos, s.sats[2].pos;
    var d2, d3 := RangeDiff(s.tdoa.value, 1), RangeDiff(s.tdoa.value, 2);
    assert MOf(s) == MatMul(inv, HThree(s1, s2, s3, rEmitter, d2, d3));
    assert MatMul(G1Three(s1, s2, s3), inv) == Diag(1.0);
    CandidateFacts(s1, s2, s3, inv, rEmitter, d2, d3, r, dist);
  }

  /** The consistency check never rejects what the three-satellite path
      computes: the only failures left are a singular G1 and an empty set
      of positive roots. */
  lemma SolveNeverInvalid(s: System, rootsOf: seq<real> -> seq<real>, dist: (Vec3, Vec3) -> real)
    requires Solvable(s)
    requires RootsSound(rootsOf) && Euclidean(dist)
    ensures Solve(s, rootsOf, dist).Err? ==>
              Solve(s, rootsOf, dist).error in {SingularMatrix, ShapeMismatch}
  {
    SolveUnfold(s, rootsOf, dist);
    if Det(G1Of(s)) != 0.0 {
      var roots := CandidateRoots(s, rootsOf);
      var positions := Positions(MOf(s), roots);
      forall i | 0 <= i < |roots|
        ensures dist(SatPositions(s)[0], positions[i]) == roots[i]
      {
        RootFacts(s, rootsOf, dist, i);
      }
      if |roots| > 0 {
        ReferencePasses(SatPositions(s), roots, positions, dist);
      }
    }
  }

  /** Every solution the solver returns is at distance R from the origin,
      at range equal to its root from the reference satellite, and at
      squared range (root + d_i)^2 from satellite i. */
  lemma SolveSound(s: System, rootsOf: seq<real> -> seq<real>, dist: (Vec3, Vec3) -> real)
    requires Solvable(s)
    requires RootsSound(rootsOf) && Euclidean(dist)
    ensures Solve(s, rootsOf, dist).Ok? ==>
              var sol := Solve(s, rootsOf, dist).value;
              && |sol.positions| == |sol.roots|
              && forall i :: 0 <= i < |sol.roots| ==> FitsSystem(s, sol.roots[i], sol.positions[i], dist)
  {
    SolveUnfold(s, rootsOf, dist);
    if Solve(s, rootsOf, dist).Ok? {
      var sol := Solve(s, rootsOf, dist).value;
      assert sol.roots == CandidateRoots(s, rootsOf);
      assert sol.positions == Positions(MOf(s), sol.roots);
      forall i | 0 <= i < |sol.roots|
        ensures FitsSystem(s, sol.roots[i], sol.positions[i], dist)
      {
        RootFacts(s, rootsOf, dist, i);
        assert sol.positions[i] == MatVec(MOf(s), Lift(sol.roots[i]));
      }
    }
  }

  /** A distance whose square is y^2 is |y|. */
  lemma RangeFromSquare(sat: Vec3, p: Vec3, y: real, dist: (Vec3, Vec3) -> real)
    requires Euclidean(dist)
    requires Norm2(Sub(p, sat)) == y * y
    ensures dist(sat, p) == Abs(y)
  {
    NormSubSymmetric(sat, p);
    assert Abs(y) * Abs(y) == y * y;
    RootOfSquare(dist(sat, p), Abs(y));
  }

  /** A position that fits the measurements of a system is at range
      |r + d_i| from satellite i. */
  lemma FitRanges(s: System, r: real, p: Vec3, dist: (Vec3, Vec3) -> real)
    requires Solvable(s) && Euclidean(dist)
    requires FitsSystem(s, r, p, dist)
    ensures forall i :: 1 <= i < 3 ==> dist(s.sats[i].pos, p) == Abs(r + RangeDiff(s.tdoa.value, i))
  {
    RangeFromSquare(s.sats[1].pos, p, r + RangeDiff(s.tdoa.value, 1), dist);
    RangeFromSquare(s.sats[2].pos, p, r + RangeDiff(s.tdoa.value, 2), dist);
  }

  /** The true ranges of the returned positions: satellite i sees solution k
      at range |root_k + d_i|. This is the measured root_k + d_i only where
      that is non-negative; a root for which it is negative fits the squared
      equations with the opposite sign, and its position is returned all the
      same. */
  lemma SolveRanges(s: System, rootsOf: seq<real> -> seq<real>, dist: (Vec3, Vec3) -> real)
    requires Solvable(s)
    requires RootsSound(rootsOf) && Euclidean(dist)
    ensures Solve(s, rootsOf, dist).Ok? ==>
              var sol := Solve(s, rootsOf, dist).value;
              forall k, i :: 0 <= k < |sol.roots| && 1 <= i < 3 ==>
                dist(s.sats[i].pos, sol.positions[k]) == Abs(sol.roots[k] + RangeDiff(s.tdoa.value, i))
  {
    SolveSound(s, rootsOf, dist);
    var r := Solve(s, rootsOf, dist);
    if r.Ok? {
      var sol := r.value;
      forall k | 0 <= k < |sol.roots|
        ensures forall i :: 1 <= i < 3 ==>
                  dist(s.sats[i].pos, sol.positions[k]) == Abs(sol.roots[k] + RangeDiff(s.tdoa.value, i))
      {
        FitRanges(s, sol.roots[k], sol.positions[k], dist);
      }
    }
  }

  /** A root whose range differences have the wrong sign still fits: with
      R = 5, s1 = (3, 4, 12), s2 = (8, 4, 0), s3 = (3, 4, -7), d2 = -17 and
      d3 = -5, the point (3, 4, 0) fits the squared equations for r = 12,
      yet it is 5 from s2 where the measurement says r + d2 = -5. */
  lemma SpuriousFit(dist: (Vec3, Vec3) -> real)
    requires Euclidean(dist)
    ensures var s1, s2, s3, p := Vec3(3.0, 4.0, 12.0), Vec3(8.0, 4.0, 0.0), Vec3(3.0, 4.0, -7.0), Vec3(3.0, 4.0, 0.0);
            && Fits(s1, s2, s3, 5.0, -17.0, -5.0, 12.0, p, dist)
            && dist(s2, p) == 5.0
            && dist(s2, p) != 12.0 + -17.0
  {
    var s1, s2, p := Vec3(3.0, 4.0, 12.0), Vec3(8.0, 4.0, 0.0), Vec3(3.0, 4.0, 0.0);
    RangeFromSquare(s1, p, 12.0, dist);
    RangeFromSquare(s2, p, -5.0, dist);
  }

  /** The ranges of theta turn into squared distances. */
  lemma RangeSquared(sat: Vec3, theta: Vec3, r: real, dist: (Vec3, Vec3) -> real)
    requires Euclidean(dist) && dist(sat, theta) == r
    ensures Norm2(Sub(theta, sat)) == r * r
  {
    NormSubSymmetric(sat, theta);
  }

  /** A point that fits the measurements for range r solves the linear
      system, so it is M * [1, r, r^2]. */
  lemma FitSolvesSystem(s1: Vec3, s2: Vec3, s3: Vec3, inv: Mat3, rEmitter: real, d2: real, d3: real,
                        r: real, theta: Vec3, dist: (Vec3, Vec3) -> real)
    requires MatMul(G1Three(s1, s2, s3), inv) == Diag(1.0) && MatMul(inv, G1Three(s1, s2, s3)) == Diag(1.0)
    requires Euclidean(dist) && Fits(s1, s2, s3, rEmitter, d2, d3, r, theta, dist)
    ensures MatVec(MatMul(inv, HThree(s1, s2, s3, rEmitter, d2, d3)), Lift(r)) == theta
  {
    var g := G1Three(s1, s2, s3);
    var h := HThree(s1, s2, s3, rEmitter, d2, d3);
    RangeSquared(s1, theta, r, dist);
    LinearSystemIff(s1, s2, s3, theta, rEmitter, r, d2, d3);
    SolveUnique(g, inv, theta, MatVec(h, Lift(r)));
    MatVecMatMul(inv, h, Lift(r));
  }

  /** A point that fits the measurements of a system for range r is the
      candidate position of r, and r is a root of the quartic. */
  lemma FitIsCandidate(s: System, dist: (Vec3, Vec3) -> real, r: real, theta: Vec3)
    requires Solvable(s) && Det(G1Of(s)) != 0.0 && Euclidean(dist)
    requires FitsSystem(s, r, theta, dist)
    ensures MatVec(MOf(s), Lift(r)) == theta
    ensures EvalPoly(Coefficients(MOf(s), s.rEmitter.value), r) == 0.0
  {
    var inv := Inverse(G1Of(s)).value;
    FitSolvesSystem(s.sats[0].pos, s.sats[1].pos, s.sats[2].pos, inv, s.rEmitter.value,
                    RangeDiff(s.tdoa.value, 1), RangeDiff(s.tdoa.value, 2), r, theta, dist);
    QuarticIdentity(MOf(s), s.rEmitter.value, r);
  }

  /** Completeness of the solve: every point that fits the measurements for
      a positive range r is returned, paired with r as its root. Together
      with `SpuriousFit` this says the solve returns wrong-sign fits too. */
  lemma FitRecovered(s: System, rootsOf: seq<real> -> seq<real>, dist: (Vec3, Vec3) -> real,
                     r: real, theta: Vec3)
    requires Solvable(s)
    requires RootsSound(rootsOf) && RootsComplete(rootsOf) && Euclidean(dist)
    requires Det(G1Of(s)) != 0.0
    requires r > 0.0 && FitsSystem(s, r, theta, dist)
    ensures Solve(s, rootsOf, dist).Ok?
    ensures var sol := Solve(s, rootsOf, dist).value;
            exists k :: 0 <= k < |sol.roots| && sol.roots[k] == r && sol.positions[k] == theta
  {
    var cs := Coefficients(MOf(s), s.rEmitter.value);
    FitIsCandidate(s, dist, r, theta);
    LeadingCoefficientPositive(G1Of(s), Inverse(G1Of(s)).value, HOf(s), s.rEmitter.value);
    assert r in rootsOf(cs);
    var roots := CandidateRoots(s, rootsOf);
    assert r in roots;
    var k :| 0 <= k < |roots| && roots[k] == r;
    SolveUnfold(s, rootsOf, dist);
    SolveNeverInvalid(s, rootsOf, dist);
    assert Positions(MOf(s), roots)[k] == theta;
  }

  /** The true emitter fits the measurements for its own reference range. */
  lemma TrueEmitterFits(s: System, dist: (Vec3, Vec3) -> real, theta: Vec3)
    requires Solvable(s) && Euclidean(dist)
    requires Norm2(theta) == s.rEmitter.value * s.rEmitter.value
    requires forall i :: 1 <= i < 3 ==>
               dist(s.sats[i].pos, theta) == dist(s.sats[0].pos, theta) + RangeDiff(s.tdoa.value, i)
    ensures FitsSystem(s, dist(s.sats[0].pos, theta), theta, dist)
  {
    var r1 := dist(s.sats[0].pos, theta);
    RangeSquared(s.sats[1].pos, theta, r1 + RangeDiff(s.tdoa.value, 1), dist);
    RangeSquared(s.sats[2].pos, theta, r1 + RangeDiff(s.tdoa.value, 2), dist);
  }

  /** The true emitter is the candidate position of its own reference range,
      and that range is a root of the quartic. */
  lemma TrueEmitterIsCandidate(s: System, dist: (Vec3, Vec3) -> real, theta: Vec3)
    requires Solvable(s) && Det(G1Of(s)) != 0.0 && Euclidean(dist)
    requires Norm2(theta) == s.rEmitter.value * s.rEmitter.value
    requires forall i :: 1 <= i < 3 ==>
               dist(s.sats[i].pos, theta) == dist(s.sats[0].pos, theta) + RangeDiff(s.tdoa.value, i)
    ensures MatVec(MOf(s), Lift(dist(s.sats[0].pos, theta))) == theta
    ensures EvalPoly(Coefficients(MOf(s), s.rEmitter.value), dist(s.sats[0].pos, theta)) == 0.0
  {
    TrueEmitterFits(s, dist, theta);
    FitIsCandidate(s, dist, dist(s.sats[0].pos, theta), theta);
  }

  /** The true emitter is recovered: an emitter on the sphere of radius R,
      at a positive range from the reference satellite and at the measured
      range differences from the others, is among the positions returned
      for a root finder that is sound and complete. */
  lemma EmitterRecovered(s: System, rootsOf: seq<real> -> seq<real>, dist: (Vec3, Vec3) -> real, theta: Vec3)
    requires Solvable(s)
    requires RootsSound(rootsOf) && RootsComplete(rootsOf) && Euclidean(dist)
    requires Det(G1Of(s)) != 0.0
    requires Norm2(theta) == s.rEmitter.value * s.rEmitter.value
    requires dist(s.sats[0].pos, theta) > 0.0
    requires forall i :: 1 <= i < 3 ==>
               dist(s.sats[i].pos, theta) == dist(s.sats[0].pos, theta) + RangeDiff(s.tdoa.value, i)
    ensures Solve(s, rootsOf, dist).Ok?
    ensures var sol := Solve(s, rootsOf, dist).value;
            exists i :: 0 <= i < |sol.roots| && sol.roots[i] == dist(s.sats[0].pos, theta) && sol.positions[i] == theta
  {
    TrueEmitterFits(s, dist, theta);
    FitRecovered(s, rootsOf, dist, dist(s.sats[0].pos, theta), theta);
  }

  /** The constructor, given a full-length TDoA override with a zero
      reference entry for a table without FDoA, builds the TDoA-only system
      with that vector. */
  lemma BuildWithOverride(table: seq<Satellite>, tdoa: seq<real>, rEmitter: real)
    requires |tdoa| == |table| > 0 && tdoa[0] == 0.0
    requires AllMissing(FdoaColumn(table))
    ensures Build(table, None, Some(tdoa), None, Some(rEmitter))
              == Ok(System(SetTdoa(table, tdoa), Present(tdoa), Null, Some(rEmitter)))
  {
    NormaliseForms(tdoa);
    var sats := SetTdoa(table, tdoa);
    assert FdoaColumn(sats) == FdoaColumn(table);
    assert WithTdoa(table, Some(tdoa)) == Ok((sats, Present(tdoa)));
    assert WithFdoa(sats, None) == Ok((sats, Null));
  }

  /** The system built from noiseless generated TDoA is solvable, keeps the
      table's positions, and its range differences are those of theta. */
  lemma GeneratedSystem(table: seq<Satellite>, theta: Vec3, rEmitter: real, noise: seq<real>,
                        dist: (Vec3, Vec3) -> real)
    requires |table| == 3 && |noise| == 3
    requires forall i :: 0 <= i < 3 ==> noise[i] == 0.0
    requires AllMissing(FdoaColumn(table))
    ensures var tdoa := GenerateTdoa([table[0].pos, table[1].pos, table[2].pos], theta, noise, dist);
            && tdoa.Ok?
            && var s := System(SetTdoa(table, tdoa.value), Present(tdoa.value), Null, Some(rEmitter));
               && Build(table, None, Some(tdoa.value), None, Some(rEmitter)) == Ok(s)
               && Solvable(s)
               && G1Of(s) == G1Three(table[0].pos, table[1].pos, table[2].pos)
               && s.sats[0].pos == table[0].pos
               && forall i :: 1 <= i < 3 ==>
                    dist(s.sats[i].pos, theta) == dist(s.sats[0].pos, theta) + RangeDiff(s.tdoa.value, i)
  {
    var sats := [table[0].pos, table[1].pos, table[2].pos];
    var tdoa := GenerateTdoa(sats, theta, noise, dist).value;
    NoiselessRanges(sats, theta, noise, dist);
    BuildWithOverride(table, tdoa, rEmitter);
    var s := System(SetTdoa(table, tdoa), Present(tdoa), Null, Some(rEmitter));
    assert WellFormed(s);
    forall i | 1 <= i < 3
      ensures dist(s.sats[i].pos, theta) == dist(s.sats[0].pos, theta) + RangeDiff(s.tdoa.value, i)
    {
      assert s.sats[i].pos == sats[i] && s.sats[0].pos == sats[0];
    }
  }

  /** End to end: noiseless TDoA generated from an emitter, passed to the
      constructor as a full-length override for three satellites without
      FDoA, is solved back to that emitter. */
  lemma GeneratedTdoaRecovered(table: seq<Satellite>, theta: Vec3, rEmitter: real, noise: seq<real>,
                               rootsOf: seq<real> -> seq<real>, dist: (Vec3, Vec3) -> real)
    requires |table| == 3 && |noise| == 3
    requires forall i :: 0 <= i < 3 ==> noise[i] == 0.0
    requires AllMissing(FdoaColumn(table))
    requires RootsSound(rootsOf) && RootsComplete(rootsOf) && Euclidean(dist)
    requires Det(G1Three(table[0].pos, table[1].pos, table[2].pos)) != 0.0
    requires Norm2(theta) == rEmitter * rEmitter
    requires dist(table[0].pos, theta) > 0.0
    ensures var tdoa := GenerateTdoa([table[0].pos, table[1].pos, table[2].pos], theta, noise, dist);
            && tdoa.Ok?
            && Build(table, None, Some(tdoa.value), None, Some(rEmitter)).Ok?
            && var s := Build(table, None, Some(tdoa.value), None, Some(rEmitter)).value;
               && Solve(s, rootsOf, dist).Ok?
               && theta in Solve(s, rootsOf, dist).value.positions
  {
    GeneratedSystem(table, theta, rEmitter, noise, dist);
    var tdoa := GenerateTdoa([table[0].pos, table[1].pos, table[2].pos], theta, noise, dist).value;
    var s := System(SetTdoa(table, tdoa), Present(tdoa), Null, Some(rEmitter));
    EmitterRecovered(s, rootsOf, dist, theta);
  }
}
