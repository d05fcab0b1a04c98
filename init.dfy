/**
 The constructors' initialisation of the latent variables from the terms
 already in the store: for every selected torsion a multiplicity bitstring,
 and for every candidate periodicity a force constant and (standard and
 continuous-phase variants) a phase variable.
 */
module Init {
  import opened Store
  import opened Bitstring
  import opened Update

  datatype Option<T> = None | Some(value: T)

  /** The periodicities the constructor creates variables for. */
  function InitMultiplicities(v: Variant): seq<int> {
    Candidates(v.EliminatePhase? && v.sampleN5)
  }

  /** The initial force constant: that of the first term of periodicity m, else 0. */
  function FirstPhiK(ts: seq<Term>, m: int): real {
    if ts == [] then 0.0
    else if ts[0].per == m then ts[0].phiK
    else FirstPhiK(ts[1..], m)
  }

  /** The phase of the first term of periodicity m, else 0. */
  function FirstPhase(ts: seq<Term>, m: int): real {
    if ts == [] then 0.0
    else if ts[0].per == m then ts[0].phase
    else FirstPhase(ts[1..], m)
  }

  /**
   The standard variant's phase-indicator scan. The scan variable `cur`
   carries over from the previous scan; None means it was never assigned.
   A term of another periodicity resets it to 0; the first term of
   periodicity m with phase 0 or 180 decides it (0 or 1) and stops the scan;
   a term of periodicity m with any other phase leaves it as it is.
   */
  function IndicatorScan(ts: seq<Term>, m: int, cur: Option<real>): Option<real> {
    if ts == [] then cur
    else if ts[0].per == m && ts[0].phase == 0.0 then Some(0.0)
    else if ts[0].per == m && ts[0].phase == 180.0 then Some(1.0)
    else if ts[0].per == m then IndicatorScan(ts[1..], m, cur)
    else IndicatorScan(ts[1..], m, Some(0.0))
  }

  /**
   The continuous-phase variant's initial phase as evidently intended: the
   scan stops at the first term of periodicity m, the term the force
   constant comes from, and takes its phase, else 0 once some other term was
   seen. The program's loop does not stop (ContinuousScanAsWritten).
   */
  function ContinuousScan(ts: seq<Term>, m: int, cur: Option<real>): Option<real> {
    if ts == [] then cur
    else if ts[0].per == m then Some(ts[0].phase)
    else ContinuousScan(ts[1..], m, Some(0.0))
  }

  /**
   The continuous-phase variant's initial phase as the program computes it:
   the loop never stops, every term reassigns the variable, so the last term
   decides (its phase when it has periodicity m, else 0). An empty list
   leaves the variable carried over from the previous scan.
   */
  function ContinuousScanAsWritten(ts: seq<Term>, m: int, cur: Option<real>): Option<real> {
    if ts == [] then cur
    else ContinuousScanAsWritten(ts[1..], m, Some(if ts[0].per == m then ts[0].phase else 0.0))
  }

  /** The latent values built so far and the carried-over phase scan variable. */
  datatype InitState = InitState(lat: Latent, carried: Option<real>)

  /** Creating the variables of periodicity m of torsion p; None when the phase variable is unbound. */
  function InitPer(st: InitState, v: Variant, ts: seq<Term>, p: Key, m: int): (r: Option<InitState>)
    requires p in st.lat.bitstring && m >= 1
    ensures r.Some? ==> p in r.value.lat.bitstring
  {
    var lat := st.lat;
    var bits := if HasPer(ts, m) then lat.bitstring[p := lat.bitstring[p] + Pow2(m - 1)] else lat.bitstring;
    var k := lat.k[(p, m) := FirstPhiK(ts, m)];
    match v
    case Standard =>
      var ind := IndicatorScan(ts, m, st.carried);
      if ind.None? then None
      else Some(InitState(Latent(bits, k, lat.phase[(p, m) := ind.value]), ind))
    case ContinuousPhase =>
      var ph := ContinuousScanAsWritten(ts, m, st.carried);
      if ph.None? then None
      else Some(InitState(Latent(bits, k, lat.phase[(p, m) := ph.value]), ph))
    case EliminatePhase(_) =>
      Some(InitState(Latent(bits, k, lat.phase), st.carried))
  }

  /** InitPer for each periodicity of ms in order, stopping at the first failure. */
  function InitPers(st: InitState, v: Variant, ts: seq<Term>, p: Key, ms: seq<int>): Option<InitState>
    requires p in st.lat.bitstring && AllPositive(ms)
    decreases |ms|
  {
    if ms == [] then Some(st)
    else
      var r := InitPer(st, v, ts, p, ms[0]);
      if r.None? then None
      else InitPers(r.value, v, ts, p, ms[1..])
  }

  /** A torsion's bitstring starts at 0 the first time its name is seen. */
  function StartBits(st: InitState, p: Key): (r: InitState)
    ensures p in r.lat.bitstring
  {
    if p in st.lat.bitstring then st
    else st.(lat := st.lat.(bitstring := st.lat.bitstring[p := 0]))
  }

  /** The constructor's loop over the selected torsions. */
  function InitAll(st: InitState, v: Variant, t: Table, ps: seq<Key>): Option<InitState>
    requires forall a :: 0 <= a < |ps| ==> ps[a] in t
    decreases |ps|
  {
    if ps == [] then Some(st)
    else
      var r := InitPers(StartBits(st, ps[0]), v, t[ps[0]], ps[0], InitMultiplicities(v));
      if r.None? then None else InitAll(r.value, v, t, ps[1..])
  }

  const EmptyState: InitState := InitState(Latent(map[], map[], map[]), None)

  /** The force-constant loop for periodicity m, which also finds whether m is present. */
  method ScanK(ts: seq<Term>, m: int) returns (found: bool, k: real)
    ensures found == HasPer(ts, m)
    ensures k == FirstPhiK(ts, m)
  {
    found := false;
    k := 0.0;
    for i := 0 to |ts|
      invariant forall j :: 0 <= j < i ==> ts[j].per != m
      invariant FirstPhiK(ts[i..], m) == FirstPhiK(ts, m)
    {
      if ts[i].per == m {
        found := true;
        k := ts[i].phiK;
        break;
      }
      assert ts[i..][1..] == ts[i + 1..];
    }
  }

  /** The standard variant's phase-indicator loop for periodicity m. */
  method ScanIndicator(ts: seq<Term>, m: int, cur: Option<real>) returns (phase: Option<real>)
    ensures phase == IndicatorScan(ts, m, cur)
  {
    phase := cur;
    for i := 0 to |ts|
      invariant IndicatorScan(ts[i..], m, phase) == IndicatorScan(ts, m, cur)
    {
      assert ts[i..][1..] == ts[i + 1..];
      if ts[i].per == m {
        if ts[i].phase == 0.0 {
          phase := Some(0.0);
          break;
        }
        if ts[i].phase == 180.0 {
          phase := Some(1.0);
          break;
        }
      } else {
        phase := Some(0.0);
      }
    }
  }

  /** The continuous-phase variant's phase loop for periodicity m, which visits every term. */
  method ScanContinuousPhase(ts: seq<Term>, m: int, cur: Option<real>) returns (phase: Option<real>)
    ensures phase == ContinuousScanAsWritten(ts, m, cur)
  {
    phase := cur;
    for i := 0 to |ts|
      invariant ContinuousScanAsWritten(ts[i..], m, phase) == ContinuousScanAsWritten(ts, m, cur)
    {
      assert ts[i..][1..] == ts[i + 1..];
      if ts[i].per == m {
        phase := Some(ts[i].phase);
      } else {
        phase := Some(0.0);
      }
    }
  }

  /** The per-periodicity loop of one torsion; None when a phase variable is unbound. */
  method InitTorsion(st: InitState, v: Variant, ts: seq<Term>, p: Key, multiplicities: seq<int>)
    returns (r: Option<InitState>)
    requires p in st.lat.bitstring && AllPositive(multiplicities)
    ensures r == InitPers(st, v, ts, p, multiplicities)
  {
    var bitstrings := st.lat.bitstring;
    var ks := st.lat.k;
    var phases := st.lat.phase;
    var phase := st.carried;
    assert multiplicities[0..] == multiplicities;
    for c := 0 to |multiplicities|
      invariant p in bitstrings
      invariant InitPers(InitState(Latent(bitstrings, ks, phases), phase), v, ts, p, multiplicities[c..])
                == InitPers(st, v, ts, p, multiplicities)
    {
      var m := multiplicities[c];
      assert multiplicities[c..][0] == m && multiplicities[c..][1..] == multiplicities[c + 1..];
      var found, k := ScanK(ts, m);
      if found {
        bitstrings := bitstrings[p := bitstrings[p] + Pow2(m - 1)];
      }
      ks := ks[(p, m) := k];
      match v
      case Standard =>
        phase := ScanIndicator(ts, m, phase);
        if phase.None? {
          return None;
        }
        phases := phases[(p, m) := phase.value];
      case ContinuousPhase =>
        phase := ScanContinuousPhase(ts, m, phase);
        if phase.None? {
          return None;
        }
        phases := phases[(p, m) := phase.value];
      case EliminatePhase(_) =>
    }
    assert multiplicities[|multiplicities|..] == [];
    r := Some(InitState(Latent(bitstrings, ks, phases), phase));
  }

  /**
   The constructors' variable creation: for each selected torsion, start its
   bitstring at 0 and create the variables of every candidate periodicity.
   None models the unbound phase variable of the first scan.
   */
  method InitLatent(v: Variant, param: ParameterSet, parametersToOptimize: seq<Key>) returns (r: Option<Latent>)
    requires forall a :: 0 <= a < |parametersToOptimize| ==> parametersToOptimize[a] in param.dihedralTypes
    ensures InitAll(EmptyState, v, param.dihedralTypes, parametersToOptimize).None? ==> r.None?
    ensures InitAll(EmptyState, v, param.dihedralTypes, parametersToOptimize).Some? ==>
              r == Some(InitAll(EmptyState, v, param.dihedralTypes, parametersToOptimize).value.lat)
  {
    var multiplicities := [1, 2, 3, 4, 6];
    if v.EliminatePhase? && v.sampleN5 {
      multiplicities := [1, 2, 3, 4, 5, 6];
    }
    assert multiplicities == InitMultiplicities(v);
    var ps := parametersToOptimize;
    var st := EmptyState;
    assert ps[0..] == ps;
    for a := 0 to |ps|
      invariant InitAll(st, v, param.dihedralTypes, ps[a..]) == InitAll(EmptyState, v, param.dihedralTypes, ps)
    {
      var p := ps[a];
      assert ps[a..][0] == p && ps[a..][1..] == ps[a + 1..];
      if p !in st.lat.bitstring {
        st := st.(lat := st.lat.(bitstring := st.lat.bitstring[p := 0]));
      }
      var next := InitTorsion(st, v, param.dihedralTypes[p], p, multiplicities);
      if next.None? {
        return None;
      }
      st := next.value;
    }
    assert ps[|ps|..] == [];
    r := Some(st.lat);
  }
}
