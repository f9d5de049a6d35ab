/** The measurement system: the satellite table after loading, truncated to
    the first `n_sats` rows, with the TDoA and FDoA measurement vectors
    normalised so that entry 0 (the reference satellite) is zero.

    Python attributes that a constructor path never assigns are a real state
    here: `Field.Unassigned` stands for an attribute that does not exist, and
    reading it later raises. `Field.Null` is an attribute set to `None`. */
module MeasurementSystem {
  import opened Errors
  import opened LinAlg

  /** One row of the satellite table. A `None` cell is a missing (NaN) value
      or a column the table does not have. */
  datatype Satellite = Satellite(pos: Vec3, vel: Vec3, tdoa: Option<real>, fdoa: Option<real>)

  datatype Field<T> = Unassigned | Null | Present(value: T)

  /** The state of a `System` instance after construction. */
  datatype System = System(
    sats: seq<Satellite>,
    tdoa: Field<seq<real>>,
    fdoa: Field<seq<real>>,
    rEmitter: Option<real>)

  /** What construction guarantees: a present measurement vector has one
      entry per satellite, a zero reference entry, and equals the table's
      column cell by cell. */
  ghost predicate WellFormed(s: System) {
    && (s.tdoa.Present? ==> MatchesColumn(s.tdoa.value, TdoaColumn(s.sats)))
    && (s.fdoa.Present? ==> MatchesColumn(s.fdoa.value, FdoaColumn(s.sats)))
  }

  ghost predicate MatchesColumn(v: seq<real>, column: seq<Option<real>>) {
    && |v| == |column|
    && |v| > 0
    && v[0] == 0.0
    && forall i :: 0 <= i < |v| ==> column[i] == Some(v[i])
  }

  function TdoaColumn(sats: seq<Satellite>): seq<Option<real>>
  {
    seq(|sats|, i requires 0 <= i < |sats| => sats[i].tdoa)
  }

  function FdoaColumn(sats: seq<Satellite>): seq<Option<real>>
  {
    seq(|sats|, i requires 0 <= i < |sats| => sats[i].fdoa)
  }

  /** `column.isna().all()`; also true of an empty or absent column. */
  predicate AllMissing(column: seq<Option<real>>) {
    forall i :: 0 <= i < |column| ==> column[i].None?
  }

  function Clamp(k: int, n: nat): nat
  {
    if k < 0 then 0 else if k > n then n else k
  }

  /** `sat_data.loc[:last]` on the default 0-based row labels: the rows whose
      label is at most `last`, in table order. */
  function LocUpTo(sats: seq<Satellite>, last: int): seq<Satellite>
    decreases |sats|
  {
    if |sats| == 0 then []
    else
      var k := |sats| - 1;
      LocUpTo(sats[..k], last) + (if k <= last then [sats[k]] else [])
  }

  /** Label selection on 0-based labels is a prefix of the table. */
  lemma {:induction false} LocUpToPrefix(sats: seq<Satellite>, last: int)
    ensures LocUpTo(sats, last) == sats[..Clamp(last + 1, |sats|)]
    decreases |sats|
  {
    if |sats| > 0 {
      var k := |sats| - 1;
      LocUpToPrefix(sats[..k], last);
      assert sats[..k][..Clamp(last + 1, k)] == sats[..Clamp(last + 1, k)];
      if k <= last {
        assert sats[..Clamp(last + 1, k)] + [sats[k]] == sats[..Clamp(last + 1, |sats|)];
      }
    }
  }

  /** The `n_sats` option: keep the first `n_sats` rows, or all of them. */
  function KeepFirst(sats: seq<Satellite>, nSats: Option<int>): (r: seq<Satellite>)
    ensures nSats.None? ==> r == sats
    ensures nSats.Some? ==> |r| == Clamp(nSats.value, |sats|)
    ensures forall i :: 0 <= i < |r| ==> r[i] == sats[i]
  {
    match nSats
    case None => sats
    case Some(k) =>
      LocUpToPrefix(sats, k - 1);
      LocUpTo(sats, k - 1)
  }

  /** The two accepted forms of a measurement override for `n` satellites:
      all `n` values with a zero reference entry, kept as given, or the
      `n - 1` differences alone, which gain a leading zero. Element 0 of an
      empty full-length list is read before any other check. */
  function Normalise(v: seq<real>, n: nat): (r: Result<seq<real>>)
    ensures r.Ok? <==> (|v| == n > 0 && v[0] == 0.0) || |v| + 1 == n
    ensures r.Ok? ==> |r.value| == n && r.value[0] == 0.0
    ensures r.Ok? && |v| == n ==> r.value == v
    ensures r.Ok? && |v| + 1 == n ==> r.value[1..] == v
    ensures r.Err? ==> (r.error == IndexOutOfRange <==> |v| == n == 0)
    ensures r.Err? ==> r.error in {IndexOutOfRange, UnknownCase}
  {
    if |v| == n && n == 0 then Err(IndexOutOfRange)
    else if |v| == n && v[0] == 0.0 then Ok(v)
    else if |v| + 1 == n then Ok([0.0] + v)
    else Err(UnknownCase)
  }

  /** A normalised vector is a fixed point in its full form and is recovered
      from its differences alone: the two accepted forms agree. */
  lemma NormaliseForms(w: seq<real>)
    requires |w| > 0 && w[0] == 0.0
    ensures Normalise(w, |w|) == Ok(w)
    ensures Normalise(w[1..], |w|) == Ok(w)
  {
    assert [0.0] + w[1..] == w;
  }

  /** Normalising an accepted override again changes nothing. */
  lemma NormaliseIdempotent(v: seq<real>, n: nat)
    requires Normalise(v, n).Ok?
    ensures Normalise(Normalise(v, n).value, n) == Normalise(v, n)
  {
    NormaliseForms(Normalise(v, n).value);
  }

  function SetTdoa(sats: seq<Satellite>, w: seq<real>): seq<Satellite>
    requires |w| == |sats|
  {
    seq(|sats|, i requires 0 <= i < |sats| => sats[i].(tdoa := Some(w[i])))
  }

  function SetFdoa(sats: seq<Satellite>, w: seq<real>): seq<Satellite>
    requires |w| == |sats|
  {
    seq(|sats|, i requires 0 <= i < |sats| => sats[i].(fdoa := Some(w[i])))
  }

  /** The TDoA block of the constructor. A missing override with no TDoA in
      the table is an error; a missing override with TDoA in the table
      assigns nothing. */
  function WithTdoa(sats: seq<Satellite>, tdoaIn: Option<seq<real>>): (r: Result<(seq<Satellite>, Field<seq<real>>)>)
  {
    match tdoaIn
    case None =>
      if AllMissing(TdoaColumn(sats)) then Err(InsufficientData) else Ok((sats, Unassigned))
    case Some(v) =>
      var w :- Normalise(v, |sats|);
      Ok((SetTdoa(sats, w), Present(w)))
  }

  /** The FDoA block: as for TDoA, except that no FDoA at all is not an
      error and leaves the attribute `None`. */
  function WithFdoa(sats: seq<Satellite>, fdoaIn: Option<seq<real>>): (r: Result<(seq<Satellite>, Field<seq<real>>)>)
  {
    match fdoaIn
    case None =>
      if AllMissing(FdoaColumn(sats)) then Ok((sats, Null)) else Ok((sats, Unassigned))
    case Some(v) =>
      var w :- Normalise(v, |sats|);
      Ok((SetFdoa(sats, w), Present(w)))
  }

  /** `System.__init__` after the table is loaded: truncate, then the TDoA
      block, then the FDoA block. */
  function Build(table: seq<Satellite>, nSats: Option<int>, tdoaIn: Option<seq<real>>,
                 fdoaIn: Option<seq<real>>, rEmitter: Option<real>): (r: Result<System>)
    ensures r.Ok? ==> WellFormed(r.value)
    ensures r.Ok? ==> r.value.rEmitter == rEmitter
    ensures r.Ok? ==> |r.value.sats| == |KeepFirst(table, nSats)|
    ensures r.Ok? ==> forall i :: 0 <= i < |r.value.sats| ==>
                        r.value.sats[i].pos == table[i].pos && r.value.sats[i].vel == table[i].vel
    ensures tdoaIn.None? && AllMissing(TdoaColumn(KeepFirst(table, nSats))) ==> r == Err(InsufficientData)
    ensures r.Ok? && tdoaIn.None? ==> r.value.tdoa == Unassigned
    ensures r.Ok? && tdoaIn.Some? ==>
              r.value.tdoa.Present? && Normalise(tdoaIn.value, |r.value.sats|) == Ok(r.value.tdoa.value)
    ensures tdoaIn.Some? && Normalise(tdoaIn.value, |KeepFirst(table, nSats)|).Err? ==>
              r == Err(Normalise(tdoaIn.value, |KeepFirst(table, nSats)|).error)
    ensures r.Ok? && fdoaIn.None? ==>
              (r.value.fdoa == Null <==> AllMissing(FdoaColumn(KeepFirst(table, nSats))))
    ensures r.Ok? && fdoaIn.None? && r.value.fdoa != Null ==> r.value.fdoa == Unassigned
    ensures r.Ok? && fdoaIn.Some? ==>
              r.value.fdoa.Present? && Normalise(fdoaIn.value, |r.value.sats|) == Ok(r.value.fdoa.value)
    ensures r.Err? <==>
              || (tdoaIn.None? && AllMissing(TdoaColumn(KeepFirst(table, nSats))))
              || (tdoaIn.Some? && Normalise(tdoaIn.value, |KeepFirst(table, nSats)|).Err?)
              || (fdoaIn.Some? && Normalise(fdoaIn.value, |KeepFirst(table, nSats)|).Err?)
    ensures !(tdoaIn.None? && AllMissing(TdoaColumn(KeepFirst(table, nSats))))
            && !(tdoaIn.Some? && Normalise(tdoaIn.value, |KeepFirst(table, nSats)|).Err?)
            && fdoaIn.Some? && Normalise(fdoaIn.value, |KeepFirst(table, nSats)|).Err? ==>
              r == Err(Normalise(fdoaIn.value, |KeepFirst(table, nSats)|).error)
    ensures r.Ok? && tdoaIn.None? ==>
              forall i :: 0 <= i < |r.value.sats| ==> r.value.sats[i].tdoa == table[i].tdoa
    ensures r.Ok? && fdoaIn.None? ==>
              forall i :: 0 <= i < |r.value.sats| ==> r.value.sats[i].fdoa == table[i].fdoa
  {
    var kept := KeepFirst(table, nSats);
    var t :- WithTdoa(kept, tdoaIn);
    assert FdoaColumn(t.0) == FdoaColumn(kept);
    var f :- WithFdoa(t.0, fdoaIn);
    Ok(System(f.0, t.1, f.1, rEmitter))
  }
}
