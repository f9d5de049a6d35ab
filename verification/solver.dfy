/** The closed-form TDoA solver.

    With three satellites, TDoA only and a known emitter radius R, the
    emitter position theta satisfies the linear system
    G1 * theta = h * [1, r1, r1^2], where r1 is the range to the reference
    satellite. With M = inverse(G1) * h, every candidate position is
    M * [1, r, r^2], and r must make its squared length R^2: a quartic in r
    whose coefficients `Coefficients` lists. The root finder is a parameter
    (`np.roots` is not modelled), and the candidates it returns are filtered
    to the positive ones.

    Every other configuration ends in an error. Some of these errors come
    from code paths that build an exception without raising it and then
    read a variable they never assigned; those end in `UnboundName`. */
module Solver {
  import opened Errors
  import opened LinAlg
  import opened Poly
  import opened Constants
  import opened MeasurementSystem
  import opened Verify

  /** The `h` matrix: 3x3 in the solved case, one column with four or more
      satellites. */
  datatype H = HSquare(rows: Mat3) | HColumn(col: seq<real>)

  /** The retained roots and one position per root. */
  datatype Solution = Solution(roots: seq<real>, positions: seq<Vec3>)

  /** TDoA present and FDoA `None`. */
  predicate TdoaOnly(s: System) {
    s.tdoa.Present? && s.fdoa.Null?
  }

  /** The state vector [1, r, r^2]. */
  function Lift(r: real): Vec3 {
    Vec3(1.0, r, r * r)
  }

  function SatPositions(s: System): seq<Vec3>
  {
    seq(|s.sats|, i requires 0 <= i < |s.sats| => s.sats[i].pos)
  }

  /** The range difference d_{i,1} = TDoA_i * c. */
  function RangeDiff(tdoa: seq<real>, i: nat): real
    requires i < |tdoa|
  {
    tdoa[i] * SpeedOfLight
  }

  /** -2 * [s1; s2 - s1; s3 - s1]. */
  function G1Three(s1: Vec3, s2: Vec3, s3: Vec3): Mat3 {
    Mat3(Scale(-2.0, s1), Scale(-2.0, Sub(s2, s1)), Scale(-2.0, Sub(s3, s1)))
  }

  /** Rows [-R^2 - |s1|^2, 0, 1] and [d^2 - |si|^2 + |s1|^2, 2d, 0]. */
  function HThree(s1: Vec3, s2: Vec3, s3: Vec3, rEmitter: real, d2: real, d3: real): Mat3 {
    Mat3(Vec3(-(rEmitter * rEmitter) - Norm2(s1), 0.0, 1.0),
         Vec3(d2 * d2 - Norm2(s2) + Norm2(s1), 2.0 * d2, 0.0),
         Vec3(d3 * d3 - Norm2(s3) + Norm2(s1), 2.0 * d3, 0.0))
  }

  /** -2 * (v[i + 1] - v[0]) for every i. */
  function ScaledDiffs(v: seq<Vec3>): seq<Vec3>
    requires |v| > 0
  {
    seq(|v| - 1, i requires 0 <= i < |v| - 1 => Scale(-2.0, Sub(v[i + 1], v[0])))
  }

  function Velocities(s: System): seq<Vec3>
  {
    seq(|s.sats|, i requires 0 <= i < |s.sats| => s.sats[i].vel)
  }

  /** `populate_G1`: the rows of the design matrix, already scaled by -2. */
  function PopulateG1(s: System): (r: Result<seq<Vec3>>)
    ensures r.Ok? <==> s.tdoa.Present? && ((s.fdoa.Null? && |s.sats| >= 3) || (s.fdoa.Present? && |s.sats| >= 2))
    ensures s.tdoa.Null? ==> r == Err(UnknownCase)
    ensures r.Err? && !s.tdoa.Null? ==> r.error == UnboundName
    ensures r.Ok? && TdoaOnly(s) && |s.sats| == 3 ==>
              var g := G1Three(s.sats[0].pos, s.sats[1].pos, s.sats[2].pos);
              r.value == [g.r0, g.r1, g.r2]
    ensures r.Ok? && TdoaOnly(s) && |s.sats| >= 4 ==> r.value == ScaledDiffs(SatPositions(s))
    ensures r.Ok? && s.fdoa.Present? && |s.sats| == 2 ==>
              r.value == [Scale(-2.0, s.sats[0].pos), Scale(-2.0, Sub(s.sats[1].pos, s.sats[0].pos)),
                          Scale(-2.0, Sub(s.sats[1].vel, s.sats[0].vel))]
    ensures r.Ok? && s.fdoa.Present? && |s.sats| >= 3 ==>
              r.value == ScaledDiffs(SatPositions(s)) + ScaledDiffs(Velocities(s))
  {
    var m := |s.sats|;
    match s.tdoa
    case Unassigned => Err(UnboundName)
    case Null => Err(UnknownCase)
    case Present(_) =>
      match s.fdoa
      case Unassigned => Err(UnboundName)
      case Null =>
        if m == 3 then
          var g := G1Three(s.sats[0].pos, s.sats[1].pos, s.sats[2].pos);
          Ok([g.r0, g.r1, g.r2])
        else if m >= 4 then
          Ok(ScaledDiffs(SatPositions(s)))
        else
          Err(UnboundName)
      case Present(_) =>
        if m == 2 then
          Ok([Scale(-2.0, s.sats[0].pos), Scale(-2.0, Sub(s.sats[1].pos, s.sats[0].pos)),
              Scale(-2.0, Sub(s.sats[1].vel, s.sats[0].vel))])
        else if m >= 3 then
          Ok(ScaledDiffs(SatPositions(s)) + ScaledDiffs(Velocities(s)))
        else
          Err(UnboundName)
  }

  /** `populate_h`. Only the TDoA-only branches assign `h`; the unknown-radius
      and FDoA branches construct an exception without raising it. */
  function PopulateH(s: System): (r: Result<H>)
    requires WellFormed(s)
    ensures r.Ok? <==> TdoaOnly(s) && ((|s.sats| == 3 && s.rEmitter.Some?) || |s.sats| >= 4)
    ensures s.tdoa.Null? ==> r == Err(UnknownCase)
    ensures r.Err? && !s.tdoa.Null? ==> r.error == UnboundName
    ensures r.Ok? && |s.sats| == 3 ==>
              r.value == HSquare(HThree(s.sats[0].pos, s.sats[1].pos, s.sats[2].pos, s.rEmitter.value,
                                        RangeDiff(s.tdoa.value, 1), RangeDiff(s.tdoa.value, 2)))
    ensures r.Ok? && |s.sats| >= 4 ==>
              r.value.HColumn? && |r.value.col| == |s.sats| - 1 &&
              forall i :: 0 <= i < |s.sats| - 1 ==>
                r.value.col[i] == RangeDiff(s.tdoa.value, i + 1) * RangeDiff(s.tdoa.value, i + 1)
                                  - Norm2(s.sats[i + 1].pos) + Norm2(s.sats[0].pos)
  {
    var m := |s.sats|;
    match s.tdoa
    case Unassigned => Err(UnboundName)
    case Null => Err(UnknownCase)
    case Present(t) =>
      match s.fdoa
      case Unassigned => Err(UnboundName)
      case Null =>
        if m == 3 then
          match s.rEmitter
          case Some(rEmitter) =>
            Ok(HSquare(HThree(s.sats[0].pos, s.sats[1].pos, s.sats[2].pos, rEmitter,
                              RangeDiff(t, 1), RangeDiff(t, 2))))
          case None => Err(UnboundName)
        else if m >= 4 then
          Ok(HColumn(seq(m - 1, i requires 0 <= i < m - 1 =>
            RangeDiff(t, i + 1) * RangeDiff(t, i + 1) - Norm2(s.sats[i + 1].pos) + Norm2(s.sats[0].pos))))
        else
          Err(UnboundName)
      case Present(_) => Err(UnboundName)
  }

  /** `get_r1_coefficients`: [c4, c3, c2, c1, c0] from the entries of
      M = inverse(G1) * h and the emitter radius. */
  function Coefficients(p: Mat3, rEmitter: real): (cs: seq<real>)
    ensures |cs| == 5
  {
    var c0 := p.r0.x * p.r0.x + p.r1.x * p.r1.x + p.r2.x * p.r2.x - rEmitter * rEmitter;
    var c1 := 2.0 * (p.r0.x * p.r0.y + p.r1.x * p.r1.y + p.r2.x * p.r2.y);
    var c2 := p.r0.y * p.r0.y + p.r1.y * p.r1.y + p.r2.y * p.r2.y
              + 2.0 * (p.r0.x * p.r0.z + p.r1.x * p.r1.z + p.r2.x * p.r2.z);
    var c3 := 2.0 * (p.r0.y * p.r0.z + p.r1.y * p.r1.z + p.r2.y * p.r2.z);
    var c4 := p.r0.z * p.r0.z + p.r1.z * p.r1.z + p.r2.z * p.r2.z;
    [c4, c3, c2, c1, c0]
  }

  /** The coefficient list is |M * [1, r, r^2]|^2 - R^2 expanded in r: its
      roots are exactly the ranges whose position lies on the sphere of
      radius R. */
  lemma QuarticIdentity(p: Mat3, rEmitter: real, r: real)
    ensures EvalPoly(Coefficients(p, rEmitter), r) == Norm2(MatVec(p, Lift(r))) - rEmitter * rEmitter
  {
    Norm2Lifted(p, r);
    SquareExpand(p.r0.x, p.r0.y, p.r0.z, r);
    SquareExpand(p.r1.x, p.r1.y, p.r1.z, r);
    SquareExpand(p.r2.x, p.r2.y, p.r2.z, r);
    var cs := Coefficients(p, rEmitter);
    Horner5(cs[0], cs[1], cs[2], cs[3], cs[4], r);
    HornerExpand(cs[0], cs[1], cs[2], cs[3], cs[4], r);
    C4Times(cs[0], p.r0.z, p.r1.z, p.r2.z, r);
    C3Times(cs[1], p.r0.y, p.r1.y, p.r2.y, p.r0.z, p.r1.z, p.r2.z, r);
    C2Times(cs[2], p.r0.y, p.r1.y, p.r2.y, p.r0.x, p.r1.x, p.r2.x, p.r0.z, p.r1.z, p.r2.z, r);
    C1Times(cs[3], p.r0.x, p.r1.x, p.r2.x, p.r0.y, p.r1.y, p.r2.y, r);
  }

  lemma SquareOf(w: real, e: real)
    requires w == e
    ensures w * w == e * e
  {
  }

  lemma RowSquare(w: real, a: real, b: real, c: real, l: Vec3, r: real)
    requires l == Lift(r)
    requires w == a * l.x + b * l.y + c * l.z
    ensures w * w == (a * 1.0 + b * r + c * (r * r)) * (a * 1.0 + b * r + c * (r * r))
  {
    assert c * l.z == c * (r * r);
    SquareOf(w, a * 1.0 + b * r + c * (r * r));
  }

  lemma Norm2Lifted(p: Mat3, r: real)
    ensures Norm2(MatVec(p, Lift(r)))
         == (p.r0.x * 1.0 + p.r0.y * r + p.r0.z * (r * r)) * (p.r0.x * 1.0 + p.r0.y * r + p.r0.z * (r * r))
          + (p.r1.x * 1.0 + p.r1.y * r + p.r1.z * (r * r)) * (p.r1.x * 1.0 + p.r1.y * r + p.r1.z * (r * r))
          + (p.r2.x * 1.0 + p.r2.y * r + p.r2.z * (r * r)) * (p.r2.x * 1.0 + p.r2.y * r + p.r2.z * (r * r))
  {
    var v := MatVec(p, Lift(r));
    RowSquare(v.x, p.r0.x, p.r0.y, p.r0.z, Lift(r), r);
    RowSquare(v.y, p.r1.x, p.r1.y, p.r1.z, Lift(r), r);
    RowSquare(v.z, p.r2.x, p.r2.y, p.r2.z, Lift(r), r);
  }

  lemma SquareExpand(a: real, b: real, c: real, r: real)
    ensures (a * 1.0 + b * r + c * (r * r)) * (a * 1.0 + b * r + c * (r * r))
         == a * a + 2.0 * a * b * r + b * b * r * r + 2.0 * a * c * r * r
            + 2.0 * b * c * r * r * r + c * c * r * r * r * r
  {
  }

  lemma C4Times(c: real, a: real, b: real, d: real, r: real)
    requires c == a * a + b * b + d * d
    ensures c * r * r * r * r == a * a * r * r * r * r + b * b * r * r * r * r + d * d * r * r * r * r
  {
  }

  lemma C3Times(c: real, a0: real, a1: real, a2: real, b0: real, b1: real, b2: real, r: real)
    requires c == 2.0 * (a0 * b0 + a1 * b1 + a2 * b2)
    ensures c * r * r * r == 2.0 * a0 * b0 * r * r * r + 2.0 * a1 * b1 * r * r * r + 2.0 * a2 * b2 * r * r * r
  {
  }

  lemma C2Times(c: real, a0: real, a1: real, a2: real, b0: real, b1: real, b2: real,
                d0: real, d1: real, d2: real, r: real)
    requires c == a0 * a0 + a1 * a1 + a2 * a2 + 2.0 * (b0 * d0 + b1 * d1 + b2 * d2)
    ensures c * r * r == a0 * a0 * r * r + a1 * a1 * r * r + a2 * a2 * r * r
                       + 2.0 * b0 * d0 * r * r + 2.0 * b1 * d1 * r * r + 2.0 * b2 * d2 * r * r
  {
  }

  lemma C1Times(c: real, a0: real, a1: real, a2: real, b0: real, b1: real, b2: real, r: real)
    requires c == 2.0 * (a0 * b0 + a1 * b1 + a2 * b2)
    ensures c * r == 2.0 * a0 * b0 * r + 2.0 * a1 * b1 * r + 2.0 * a2 * b2 * r
  {
  }

  /** `roots[roots > 0]`: the positive candidates in their original order. */
  function Positive(xs: seq<real>): (r: seq<real>)
    ensures forall x :: x in r <==> x in xs && x > 0.0
    ensures |r| <= |xs|
    decreases |xs|
  {
    if |xs| == 0 then []
    else (if xs[0] > 0.0 then [xs[0]] else []) + Positive(xs[1..])
  }

  /** Filtering distributes over concatenation, so it keeps the original
      order. */
  lemma {:induction false} PositiveAppend(a: seq<real>, b: seq<real>)
    ensures Positive(a + b) == Positive(a) + Positive(b)
    decreases |a|
  {
    if |a| > 0 {
      assert (a + b)[1..] == a[1..] + b;
      PositiveAppend(a[1..], b);
    } else {
      assert a + b == b;
    }
  }

  /** One position per retained root, `M * [1, r, r^2]`. */
  function Positions(p: Mat3, roots: seq<real>): seq<Vec3>
  {
    seq(|roots|, i requires 0 <= i < |roots| => MatVec(p, Lift(roots[i])))
  }

  /** The solved case: TDoA only, three satellites, known radius. The
      matrix product with the empty state built from no roots fails on
      shapes. */
  function SolveThree(s: System, g: Mat3, h: Mat3, rootsOf: seq<real> -> seq<real>,
                      dist: (Vec3, Vec3) -> real): (r: Result<Solution>)
    requires WellFormed(s) && TdoaOnly(s) && |s.sats| == 3 && s.rEmitter.Some?
    ensures r.Err? ==> r.error in {SingularMatrix, ShapeMismatch, InvalidSolution}
    ensures r.Err? && r.error == SingularMatrix <==> Det(g) == 0.0
    ensures r.Ok? ==> |r.value.positions| == |r.value.roots| > 0
    ensures r.Ok? ==> Det(g) != 0.0
    ensures r.Ok? ==>
              var m := MatMul(Inverse(g).value, h);
              && (forall x :: x in r.value.roots <==> x in rootsOf(Coefficients(m, s.rEmitter.value)) && x > 0.0)
              && r.value.roots == Positive(rootsOf(Coefficients(m, s.rEmitter.value)))
              && forall i :: 0 <= i < |r.value.roots| ==> r.value.positions[i] == MatVec(m, Lift(r.value.roots[i]))
    ensures r.Err? && r.error == InvalidSolution <==>
              Det(g) != 0.0 &&
              var m := MatMul(Inverse(g).value, h);
              var roots := Positive(rootsOf(Coefficients(m, s.rEmitter.value)));
              |roots| > 0 && ReferenceFails(SatPositions(s), roots, Positions(m, roots), dist)
    ensures r.Err? && r.error == ShapeMismatch <==>
              Det(g) != 0.0 &&
              forall x :: x in rootsOf(Coefficients(MatMul(Inverse(g).value, h), s.rEmitter.value)) ==> x <= 0.0
  {
    var inv :- Inverse(g);
    var p := MatMul(inv, h);
    var roots := Positive(rootsOf(Coefficients(p, s.rEmitter.value)));
    if |roots| == 0 then
      Err(ShapeMismatch)
    else
      assert roots[0] in roots;
      var positions := Positions(p, roots);
      var _ :- SolutionError(SatPositions(s), roots, positions, s.tdoa.value, dist);
      Ok(Solution(roots, positions))
  }

  /** `Solver.solve`: build G1 and h, then dispatch on the configuration. */
  function Solve(s: System, rootsOf: seq<real> -> seq<real>, dist: (Vec3, Vec3) -> real): (r: Result<Solution>)
    requires WellFormed(s)
    ensures r.Ok? ==> TdoaOnly(s) && |s.sats| == 3 && s.rEmitter.Some?
    ensures s.tdoa.Unassigned? ==> r == Err(UnboundName)
    ensures s.tdoa.Null? ==> r == Err(UnknownCase)
    ensures s.tdoa.Present? && !s.fdoa.Null? ==> r == Err(UnboundName)
    ensures TdoaOnly(s) && |s.sats| < 3 ==> r == Err(UnboundName)
    ensures TdoaOnly(s) && |s.sats| == 3 && s.rEmitter.None? ==> r == Err(UnboundName)
    ensures TdoaOnly(s) && |s.sats| >= 4 ==> r == Err(NotImplemented)
    ensures TdoaOnly(s) && |s.sats| == 3 && s.rEmitter.Some? ==>
              r == SolveThree(s, G1Three(s.sats[0].pos, s.sats[1].pos, s.sats[2].pos),
                              HThree(s.sats[0].pos, s.sats[1].pos, s.sats[2].pos, s.rEmitter.value,
                                     RangeDiff(s.tdoa.value, 1), RangeDiff(s.tdoa.value, 2)),
                              rootsOf, dist)
  {
    var g :- PopulateG1(s);
    var h :- PopulateH(s);
    if TdoaOnly(s) then
      if |s.sats| == 3 then
        SolveThree(s, Mat3(g[0], g[1], g[2]), h.rows, rootsOf, dist)
      else
        Err(NotImplemented)
    else
      Err(NotImplemented)
  }

  /** `Solver.TDoA_solve`: discard FDoA on the system, then solve. The
      restore at the end of the source routine follows its returns and
      raises, so the system keeps FDoA `None` afterwards. The first
      component is the system's state after the call. */
  function TdoaSolve(s: System, rootsOf: seq<real> -> seq<real>, dist: (Vec3, Vec3) -> real)
    : (r: (System, Result<Solution>))
    requires WellFormed(s)
    ensures r.0.sats == s.sats && r.0.tdoa == s.tdoa && r.0.rEmitter == s.rEmitter
    ensures s.fdoa.Unassigned? ==> r.0 == s && r.1 == Err(UnboundName)
    ensures !s.fdoa.Unassigned? ==> r.0.fdoa.Null? && WellFormed(r.0)
    ensures !s.fdoa.Unassigned? ==> r.1 == Solve(r.0, rootsOf, dist)
  {
    if s.fdoa.Unassigned? then
      (s, Err(UnboundName))
    else
      var t := s.(fdoa := Null);
      (t, Solve(t, rootsOf, dist))
  }

  /** On a TDoA-only system the two entry points agree and `TdoaSolve`
      leaves the system as it was. */
  lemma TdoaSolveAgrees(s: System, rootsOf: seq<real> -> seq<real>, dist: (Vec3, Vec3) -> real)
    requires WellFormed(s) && TdoaOnly(s)
    ensures TdoaSolve(s, rootsOf, dist) == (s, Solve(s, rootsOf, dist))
  {
  }

  /** A present FDoA only changes the outcome of `solve`: `TDoA_solve`
      ignores it and answers as if it had never been given. */
  lemma TdoaSolveIgnoresFdoa(s: System, rootsOf: seq<real> -> seq<real>, dist: (Vec3, Vec3) -> real)
    requires WellFormed(s) && s.tdoa.Present? && s.fdoa.Present?
    ensures Solve(s, rootsOf, dist) == Err(UnboundName)
    ensures TdoaSolve(s, rootsOf, dist).1 == Solve(s.(fdoa := Null), rootsOf, dist)
  {
  }
}
