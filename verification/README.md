# Closed-form TDoA geolocation solver, modelled in Dafny

This project models the algebraic core of a satellite TDoA (time difference
of arrival) geolocation solver. The emitter lies on a sphere of known radius
`R` (the Earth's surface, `r_emitter`). Three receivers at known positions
report arrival-time differences against receiver 0, the reference. The
solver does four things:
- it writes the range equations as a linear system `G1 * theta = h * [1, r1, r1^2]`;
- it inverts `G1`;
- it reduces `|M * [1, r1, r1^2]|^2 = R^2` (with `M = G1^-1 * h`) to a quartic in the reference range `r1`;
- for every positive root it rebuilds the emitter position `M * [1, r1, r1^2]`.

A consistency check rejects solutions whose implied reference TDoA is not
zero. A generator produces synthetic TDoA from a known emitter.

Every float operation becomes exact arithmetic on `real`. The modules are:
- `Errors`: the solver's exception classes and a singular-matrix failure, as one error type, with `Result` and `Option`. Runtime failures the source reaches without raising its own exception are error kinds too:
  - `UnboundName`: a local or attribute read before any assignment;
  - `IndexOutOfRange`: an index past the end of a list, namely element 0 of an empty list, or `roots[i]` in the consistency check when there are fewer roots than solutions;
  - `ShapeMismatch`: a matrix product on an empty state.
- `Constants`: the speed of light.
- `LinAlg`: 3-vectors, 3x3 matrices, and the inverse through the adjugate.
- `Poly`: polynomial evaluation in `np.roots` coefficient order. It also holds the two assumptions about the root finder: it is sound (every value it returns is a root) and complete (it returns every real root of a true quartic).
- `MeasurementSystem`: the `System` constructor. It truncates the table to `n_sats` rows, normalises the TDoA and FDoA overrides, and rejects a missing TDoA. A Python attribute that no branch assigns is a state of its own (`Field.Unassigned`), distinct from one set to `None` (`Field.Null`).
- `Verify`: `solution_error` and `generate_TDOA`. The Euclidean distance is a function parameter, because `real` has no square root. The predicate `Euclidean` states what proofs may assume of it.
- `Solver`: `populate_G1`, `populate_h`, `get_r1_coefficients`, the root filter, `solve` and `TDoA_solve`.
- `Recovery`: end-to-end properties of the three-satellite path.
  - Each returned position lies on the sphere and is at range equal to its root from the reference satellite, so the consistency check never rejects what the solver computes. From satellite i it is at range `|root + d_i|`. That is the measured `root + d_i` only when it is non-negative, because the equations are squared.
  - With a sound and complete root finder and an invertible `G1`, every point that fits the squared equations for a positive root is returned. That includes points whose range differences have the wrong sign.
  - With a sound and complete root finder, an invertible `G1` and an emitter at nonzero range from the reference satellite, the true emitter is among the returned positions. A singular `G1` makes the solve fail with `SingularMatrix`, and an emitter at the reference satellite has range 0, which the `> 0` filter drops. This holds also when the TDoA was generated from that emitter and passed through the constructor.

Where the code and its documentation disagree, the model follows the code:
- With FDoA present, `solve` does not reach its `NotImplementedError`. `populate_h` constructs an exception without raising it, so `h` is never assigned, and the model reports `UnboundName`.
- An unknown `r_emitter` fails for the same reason.
- When no positive root is found, the solver does not return an empty solution. It fails on the shape of the empty state matrix (`ShapeMismatch`).
- If the table has a TDoA column and no override is passed, the constructor assigns no TDoA attribute at all. Reading it later fails.
- `TDoA_solve` clears FDoA, but its restore step comes after every return and raise. So the system keeps FDoA `None` afterwards.
- The speed of light is a function in utils/constants.py. The solver (solver.py) and the solution check (verify.py) multiply and divide by it without calling it. geolocation/utils/constants.py, which they import, is not part of this model. The model uses the value that function returns, 299792458 m/s.

## Model

| member | source | states |
|---|---|---|
| LinAlg.Inverse | geolocation/solver/solver.py:39 | the inverse exists exactly when the determinant is nonzero, and it is then a two-sided inverse; a singular design matrix is reported as `SingularMatrix` |
| LinAlg.SolveUnique | geolocation/solver/solver.py:39-40 | for an invertible matrix, `G1 * x = b` holds exactly when `x = G1^-1 * b`: inverting recovers the one solution of the linear system |
| MeasurementSystem.KeepFirst | geolocation/solver/system.py:37-38 | `n_sats` keeps exactly the first `min(max(n_sats, 0), n)` rows in their order; no `n_sats` keeps the whole table |
| MeasurementSystem.LocUpToPrefix | geolocation/solver/system.py:38 | label selection `loc[:n_sats-1]` on 0-based labels is the prefix of length `n_sats` clamped to the table |
| MeasurementSystem.Normalise | geolocation/solver/system.py:49-61 | an override is accepted exactly when it has full length with a zero first entry or has one entry fewer; a full-length one is kept as given, a short one gains a leading zero; the result has one entry per satellite and a zero reference entry; an empty full-length list fails on its element 0, every other form is `UnknownCase` |
| MeasurementSystem.NormaliseForms | geolocation/solver/system.py:51-58 | the two accepted forms agree: a normalised vector is accepted unchanged, and its differences alone normalise back to it |
| MeasurementSystem.NormaliseIdempotent | geolocation/solver/system.py:49-58 | normalising an accepted override a second time changes nothing |
| MeasurementSystem.Build | geolocation/solver/system.py:37-84 | construction fails exactly when there is no TDoA (no override and none in the kept rows), or a TDoA override is rejected, or an FDoA override is rejected; the error is `InsufficientData`, else the TDoA override's error, else the FDoA override's error. The constructed system is well formed: stored vectors match the table column cell by cell, with one entry per kept row and a zero reference entry. Positions and velocities are the table's, truncated by `n_sats`. No TDoA override and no TDoA in the kept rows is `InsufficientData`. A rejected TDoA override's error is the constructor's error. No TDoA override with a TDoA column leaves TDoA unassigned and the table's TDoA cells as they were; likewise no FDoA override leaves the FDoA cells as they were. No FDoA at all gives FDoA `None`, and FDoA in the table without an override leaves it unassigned |
| Verify.RelativeError | geolocation/solver/verify.py:21 | the residual exists exactly when the observation is nonzero, and then times the observation it is the implied minus the observed TDoA |
| Verify.SolutionError | geolocation/solver/verify.py:4-23 | `IndexOutOfRange` exactly when there are fewer roots than solutions or no solutions or no satellites. Otherwise `InvalidSolutionError` exactly when some solution implies a reference TDoA beyond 1e-12 in magnitude (1e-12 itself passes). Otherwise one row per solution and one column per non-reference satellite, each cell the relative error of `(dist(sat_j, sol_i) - root_i) / c` against the observed TDoA |
| Verify.ConsistentSolutionsPass | geolocation/solver/verify.py:11-21 | solutions at range exactly their root from the reference satellite, and at root + c * TDoA_j from satellite j, pass the check with zero relative error wherever the observation is nonzero |
| Verify.GenerateTdoa | geolocation/solver/verify.py:37-52 | the generated vector has one entry per satellite and an exact zero reference entry; every other entry minus its noise is the range difference to the reference over `c`; no satellites fails on element 0 of the noise |
| Verify.NoiselessRanges | geolocation/solver/verify.py:40-52 | with zero noise, `c * tdoa[i]` is exactly the range difference `d_i - d_0` |
| Verify.TrueEmitterPasses | geolocation/solver/verify.py:4-54 | the emitter that generated noiseless TDoA, with its true reference range, passes the consistency check |
| Solver.PopulateG1 | geolocation/solver/solver.py:110-158 | TDoA without FDoA and with three satellites gives the rows `-2 * [s1; s2 - s1; s3 - s1]`. With four or more satellites the rows are `-2 * (s_i - s1)`. With FDoA the velocity differences are added. No TDoA is `UnknownCase`. Any configuration whose branch assigns nothing fails as unassigned |
| Solver.PopulateH | geolocation/solver/solver.py:161-214 | `h` is assigned exactly for TDoA without FDoA, with either three satellites and a known radius or four or more satellites. The three-satellite rows are `[-R^2 - abs(s1)^2, 0, 1]` and `[d_i^2 - abs(s_i)^2 + abs(s1)^2, 2 d_i, 0]`, with `d_i = c * TDoA_i`. The unknown-radius and FDoA branches leave `h` unassigned |
| Solver.QuarticIdentity | geolocation/solver/solver.py:217-247 | the coefficient list `[c4, c3, c2, c1, c0]` evaluated at any r is `abs(M * [1, r, r^2])^2 - R^2`: its roots are exactly the ranges whose rebuilt position lies on the sphere |
| Solver.Positive | geolocation/solver/solver.py:42-43 | a value is kept exactly when it is a candidate root and positive |
| Solver.PositiveAppend | geolocation/solver/solver.py:43 | filtering distributes over concatenation, so the kept roots stay in their original order |
| Solver.SolveThree | geolocation/solver/solver.py:38-49 | the three-satellite path fails with `SingularMatrix` exactly when `G1` is singular; with `ShapeMismatch` exactly when `G1` is invertible and no candidate root is positive; with `InvalidSolutionError` exactly when `G1` is invertible, some candidate is positive, and some position `M * [1, r_i, r_i^2]` implies a reference TDoA beyond the tolerance; it fails in no other way, so otherwise it succeeds. A solution's roots are the positive candidates of the quartic for `M = G1^-1 * h`, in the root finder's order and with its multiplicities, with one position per root, position i being `M * [1, r_i, r_i^2]` |
| Solver.Solve | geolocation/solver/solver.py:22-64 | only TDoA without FDoA, with three satellites and a known radius, can succeed, and that case is the three-satellite path on the `G1` and `h` above. Four or more satellites is `NotImplementedError`. No TDoA is `UnknownCase`. FDoA present (with the table's velocity columns), an unknown radius, fewer than three satellites or an unassigned TDoA fail as unassigned |
| Solver.TdoaSolve | geolocation/solver/solver.py:67-107 | FDoA is cleared on the system, which keeps it cleared afterwards and stays well formed, and the outcome is that of `solve` on the cleared system; an unassigned FDoA attribute fails before anything changes |
| Solver.TdoaSolveAgrees | geolocation/solver/solver.py:67-104 | on a TDoA-only system the two entry points give the same outcome and `TDoA_solve` leaves the system as it was |
| Solver.TdoaSolveIgnoresFdoa | geolocation/solver/solver.py:54-96 | with FDoA present `solve` fails, while `TDoA_solve` answers as if FDoA had never been given |
| Recovery.LinearSystemIff | geolocation/solver/solver.py:122-188 | on the sphere, `G1 * theta = h * [1, r1, r1^2]` holds exactly when theta is at squared range `r1^2` from s1 and at squared range `(r1 + d_i)^2` from s_i |
| Recovery.LeadingCoefficientPositive | geolocation/solver/solver.py:39-42 | when `G1` is invertible the leading coefficient is positive, so the root finder is always handed a true quartic |
| Recovery.CandidateOnSphere | geolocation/solver/solver.py:39-45 | the position rebuilt from any root of the quartic lies on the sphere of radius R and solves the linear system |
| Recovery.ReferencePasses | geolocation/solver/verify.py:16-19 | solutions at range exactly their root from the reference satellite never trigger the reference check |
| Recovery.SolveNeverInvalid | geolocation/solver/solver.py:38-46 | with a sound root finder and a true distance, the three-satellite solve never raises `InvalidSolutionError`; its only failures are a singular `G1` and no positive root |
| Recovery.SolveSound | geolocation/solver/solver.py:38-49 | every returned position lies on the sphere, is at range equal to its root from the reference satellite, and at squared range `(root + d_i)^2` from satellite i |
| Recovery.SolveRanges | geolocation/solver/solver.py:38-49 | every returned position is at range `abs(root + d_i)` from satellite i: the measured range difference only where `root + d_i >= 0` |
| Recovery.SpuriousFit | geolocation/solver/solver.py:176-188 | the squared equations admit a point whose range difference has the wrong sign: for R = 5 and r = 12, (3, 4, 0) fits while it is 5, not 12 - 17, from s2 |
| Recovery.FitIsCandidate | geolocation/solver/solver.py:39-45 | a point that fits the squared equations for range r is the position rebuilt from r, and r is a root of the quartic |
| Recovery.FitRecovered | geolocation/solver/solver.py:38-49 | with a sound and complete root finder and an invertible `G1`, every point that fits the squared equations for a positive range r is returned, paired with r as its root |
| Recovery.TrueEmitterIsCandidate | geolocation/solver/solver.py:39-45 | a true emitter is the position rebuilt from its own reference range, and that range is a root of the quartic |
| Recovery.EmitterRecovered | geolocation/solver/solver.py:38-49 | with a sound and complete root finder, an invertible `G1` and an emitter at nonzero range from the reference satellite, the solve succeeds, and the true emitter is among the positions, paired with its reference range as root |
| Recovery.BuildWithOverride | geolocation/solver/system.py:49-84 | a full-length override with a zero reference entry, for a table without FDoA, builds the TDoA-only system holding exactly that vector |
| Recovery.GeneratedSystem | geolocation/solver/verify.py:37-52 | noiseless generated TDoA for three satellites, passed as an override, builds a solvable system whose range differences are those of the emitter |
| Recovery.GeneratedTdoaRecovered | geolocation/solver/solver.py:22-49 | end to end: noiseless TDoA generated from an emitter, passed to the constructor and solved, returns that emitter among its positions |

## Left out

- Loading the satellite CSV and converting units or geographic coordinates (system.py lines 36 and 40-43): file I/O and trigonometry. Positions are cartesian SI values in the table.
- The geographic emitter input of `generate_TDOA` (verify.py lines 34-36): trigonometry. `Verify.GenerateTdoa` takes the emitter in cartesian coordinates.
- `np.roots`: it becomes the parameter `rootsOf`. The proofs assume it is sound and, where stated, complete. Complex roots and their ordering under `> 0` are not modelled.
- `np.linalg.inv` becomes the adjugate over the determinant. Floating-point near-singularity is not modelled; only an exactly zero determinant fails.
- The square root in the distances becomes the parameter `dist`, assumed Euclidean where a proof needs it.
- The random noise of `generate_TDOA` is an input vector. Its variance argument is therefore unused.
- Printing (`_print_solution`, the messages of the constructor and of `solution_error`): output only.
- `_reset_system_attrs` is never reached, because every path of `TDoA_solve` returns or raises before it.
- Floating-point rounding, overflow, and NaN/inf from division: arithmetic is exact. A zero observed TDoA gives a missing residual (`None`) instead of an infinity.
- Verify.SolutionError: requires one observed TDoA per satellite. A different length is a NumPy broadcasting matter that the source never produces.
- Verify.GenerateTdoa: requires one noise value per satellite, which the source draws with size `n_sats`.
- Solver.Solve: requires the system to be well formed, as every constructed system is (`MeasurementSystem.Build`). The solver reads TDoA from the table column and the model reads the stored vector, and well-formedness makes the two the same.
- Solver.Coefficients: its own contract states only the length. What the coefficients mean is stated by `Solver.QuarticIdentity`.
- Solver.PopulateG1: the four-or-more-satellite and FDoA matrices are built, but no solve uses them, because those configurations end in `NotImplementedError` or an unassigned `h`.
- Solver.PopulateH: the column built for four or more satellites is stated cell by cell, but no solve uses it.
- Solver.PopulateH: requires the system to be well formed, so that the TDoA vector has an entry for every satellite it reads.
- Solver.TdoaSolve: requires the system to be well formed, for the same reason as `Solver.Solve`.
- The fall-through branches of `get_r1_coefficients` (solver.py lines 249-250 and the implicit `None` return) are not modelled. `populate_h` has already failed on every configuration that reaches them.
- Solver.PopulateG1: every satellite row carries a velocity. A table without `vx`/`vy`/`vz` columns makes the source raise `KeyError` on the FDoA branches (solver.py lines 138-140 and 147-149). That case is not modelled; the model builds the rows and the solve then fails as unassigned.
- Solver.Solve: returns the positions of spurious roots too. A positive root for which `root + d_i < 0` gives a point at range `|root + d_i|`, not `root + d_i`, from satellite i (`Recovery.SolveRanges`, `Recovery.SpuriousFit`). The reference check cannot reject it, and the model promises nothing that would single out the true emitter among the returned positions.
- Recovery.TrueEmitterIsCandidate, Recovery.EmitterRecovered and Recovery.GeneratedTdoaRecovered: the true emitter is given as a point whose ranges fit the measurements exactly. With noisy measurements no such point need exist, and the model says nothing about how close the returned positions then are.
