/**
 The force-field updater (update_param) of the three model variants. For
 every selected torsion it walks the forward list by index; the bit of the
 torsion's multiplicity bitstring for the term's periodicity (or the
 decouple flag) decides whether the term is written from its latent force
 constant (and, by variant, phase) or disabled with a zero force constant.
 Every write goes to the forward term and to the reversed term at the same
 index.
 */
module Update {
  import opened Store
  import opened Bitstring

  /** The three model classes: standard, continuous phase, eliminated phase. */
  datatype Variant = Standard | ContinuousPhase | EliminatePhase(sampleN5: bool)

  /**
   The current values of the latent variables: one bitstring per torsion,
   one force constant per (torsion, periodicity) and one phase per (torsion,
   periodicity), read as a 0/1 indicator by the standard variant and as
   degrees by the continuous-phase variant.
   */
  datatype Latent = Latent(bitstring: map<Key, int>, k: map<(Key, int), real>, phase: map<(Key, int), real>)

  /** The fixed configuration of a fitting model. */
  datatype FitModel = FitModel(variant: Variant, parametersToOptimize: seq<Key>, decoupleN: bool)

  /** The torsion's bitstring exists and lies in the variable's range 0..63. */
  predicate BitsReady(lat: Latent, p: Key) {
    p in lat.bitstring && 0 <= lat.bitstring[p] < 64
  }

  /** The term is switched on: its bit is set, or decoupling ignores the bitstring. */
  predicate Enabled(fm: FitModel, lat: Latent, p: Key, m: int)
    requires BitsReady(lat, p) && m >= 1
  {
    HasBit(lat.bitstring[p], m) || fm.decoupleN
  }

  /** An enabled period-5 term is passed over unless the eliminated-phase variant samples it. */
  predicate Skipped(v: Variant, m: int) {
    m == 5 && !(v.EliminatePhase? && v.sampleN5)
  }

  /** The latent values that updating a term of periodicity m reads exist. */
  predicate TermReady(fm: FitModel, lat: Latent, p: Key, m: int)
    requires BitsReady(lat, p)
  {
    && m >= 1
    && (Enabled(fm, lat, p, m) && !Skipped(fm.variant, m) ==>
          (p, m) in lat.k && (fm.variant.EliminatePhase? || (p, m) in lat.phase))
  }

  predicate TermsReady(fm: FitModel, lat: Latent, p: Key, ts: seq<Term>)
    requires BitsReady(lat, p)
  {
    forall i :: 0 <= i < |ts| ==> TermReady(fm, lat, p, ts[i].per)
  }

  predicate TorsionReady(t: Table, fm: FitModel, lat: Latent, p: Key) {
    Paired(t, p) && BitsReady(lat, p) && TermsReady(fm, lat, p, t[p])
  }

  /** Everything update_param looks up for the torsions ps exists. */
  predicate Ready(t: Table, fm: FitModel, lat: Latent, ps: seq<Key>) {
    forall a :: 0 <= a < |ps| ==> TorsionReady(t, fm, lat, ps[a])
  }

  lemma ReadyShape(t1: Table, t2: Table, fm: FitModel, lat: Latent, ps: seq<Key>)
    requires SameShape(t1, t2) && Ready(t1, fm, lat, ps)
    ensures Ready(t2, fm, lat, ps)
  {
    forall a | 0 <= a < |ps|
      ensures TorsionReady(t2, fm, lat, ps[a])
    {
      var p := ps[a];
      assert TorsionReady(t1, fm, lat, p);
      forall i | 0 <= i < |t2[p]|
        ensures TermReady(fm, lat, p, t2[p][i].per)
      {
        assert t2[p][i].per == t1[p][i].per;
      }
    }
  }

  /** What updating one term does. */
  datatype Action =
    | Keep                               // skipped period 5, or past the standard variant's break
    | Disable                            // bit clear: force constant 0, phase untouched
    | SetK(k: real)                      // force constant only
    | SetKPhase(k: real, phase: real)    // force constant and phase

  function Apply(t: Term, a: Action): (r: Term)
    ensures r.per == t.per
  {
    match a
    case Keep => t
    case Disable => t.(phiK := 0.0)
    case SetK(k) => t.(phiK := k)
    case SetKPhase(k, ph) => t.(phiK := k, phase := ph)
  }

  /** The write for a term of periodicity m, before the standard variant's break is considered. */
  function RawAction(fm: FitModel, lat: Latent, p: Key, m: int): Action
    requires BitsReady(lat, p) && TermReady(fm, lat, p, m)
  {
    if !Enabled(fm, lat, p, m) then Disable
    else if Skipped(fm.variant, m) then Keep
    else
      var k := lat.k[(p, m)];
      match fm.variant
      case Standard =>
        var indicator := lat.phase[(p, m)];
        if indicator == 1.0 then SetKPhase(k, 180.0)
        else if indicator == 0.0 then SetKPhase(k, 0.0)
        else SetK(k)
      case ContinuousPhase => SetKPhase(k, lat.phase[(p, m)])
      case EliminatePhase(_) => SetK(k)
  }

  /** The standard variant leaves the loop right after writing a 0 or 180 phase. */
  predicate Breaks(fm: FitModel, lat: Latent, p: Key, m: int)
    requires BitsReady(lat, p) && TermReady(fm, lat, p, m)
  {
    fm.variant.Standard? && RawAction(fm, lat, p, m).SetKPhase?
  }

  /** The index at which the loop over ts stops early, or |ts| when it runs to the end. */
  function BreakIndex(fm: FitModel, lat: Latent, p: Key, ts: seq<Term>): (r: nat)
    requires BitsReady(lat, p) && TermsReady(fm, lat, p, ts)
    ensures r <= |ts|
    ensures forall j :: 0 <= j < r ==> !Breaks(fm, lat, p, ts[j].per)
    ensures r < |ts| ==> Breaks(fm, lat, p, ts[r].per)
  {
    if ts == [] then 0
    else if Breaks(fm, lat, p, ts[0].per) then 0
    else 1 + BreakIndex(fm, lat, p, ts[1..])
  }

  /** The action at index i of the forward list ts. */
  function ActionAt(fm: FitModel, lat: Latent, p: Key, ts: seq<Term>, i: nat): Action
    requires BitsReady(lat, p) && TermsReady(fm, lat, p, ts) && i < |ts|
  {
    if i <= BreakIndex(fm, lat, p, ts) then RawAction(fm, lat, p, ts[i].per) else Keep
  }

  /**
   The store once the loop for torsion p has handled the indices below n:
   forward term i and reversed term i both receive the action at i.
   */
  function UpdatePrefix(t: Table, fm: FitModel, lat: Latent, p: Key, n: nat): (r: Table)
    requires TorsionReady(t, fm, lat, p)
    ensures r.Keys == t.Keys && |r[p]| == |t[p]| && |r[Reverse(p)]| == |t[Reverse(p)]|
  {
    var fwd := t[p];
    var rev := t[Reverse(p)];
    var fwd' := seq(|fwd|, i requires 0 <= i < |fwd| =>
                  if i < n then Apply(fwd[i], ActionAt(fm, lat, p, fwd, i)) else fwd[i]);
    var rev' := seq(|rev|, i requires 0 <= i < |rev| =>
                  if i < n && i < |fwd| then Apply(rev[i], ActionAt(fm, lat, p, fwd, i)) else rev[i]);
    t[p := fwd'][Reverse(p) := rev']
  }

  /** update_param's effect on one selected torsion. */
  function UpdateTorsion(t: Table, fm: FitModel, lat: Latent, p: Key): Table
    requires TorsionReady(t, fm, lat, p)
  {
    UpdatePrefix(t, fm, lat, p, |t[p]|)
  }

  lemma UpdatePrefixShape(t: Table, fm: FitModel, lat: Latent, p: Key, n: nat)
    requires TorsionReady(t, fm, lat, p)
    ensures SameShape(t, UpdatePrefix(t, fm, lat, p, n))
  {
  }

  /** update_param over the torsions ps, in order. */
  function UpdateAll(t: Table, fm: FitModel, lat: Latent, ps: seq<Key>): Table
    requires Ready(t, fm, lat, ps)
    decreases |ps|
  {
    if ps == [] then t
    else
      var t1 := UpdateTorsion(t, fm, lat, ps[0]);
      UpdatePrefixShape(t, fm, lat, ps[0], |t[ps[0]]|);
      ReadyShape(t, t1, fm, lat, ps[1..]);
      UpdateAll(t1, fm, lat, ps[1..])
  }

  /** Applying the same write twice is applying it once. */
  lemma ApplyTwice(t: Term, a: Action)
    ensures Apply(Apply(t, a), a) == Apply(t, a)
  {
  }

  /** Both orientations of p receive action a at index i. */
  function WriteAt(t: Table, p: Key, i: nat, a: Action): Table
    requires Paired(t, p) && i < |t[p]|
  {
    var t1 := t[p := t[p][i := Apply(t[p][i], a)]];
    t1[Reverse(p) := t1[Reverse(p)][i := Apply(t1[Reverse(p)][i], a)]]
  }

  /** Writing a force constant to both orientations is the SetK action. */
  lemma PhiKWrites(t: Table, p: Key, i: nat, v: real)
    requires Paired(t, p) && i < |t[p]|
    ensures WithPhiK(WithPhiK(t, p, i, v), Reverse(p), i, v) == WriteAt(t, p, i, SetK(v))
  {
  }

  /** A disabled term is written as a zero force constant. */
  lemma DisableWrites(t: Table, p: Key, i: nat)
    requires Paired(t, p) && i < |t[p]|
    ensures WriteAt(t, p, i, SetK(0.0)) == WriteAt(t, p, i, Disable)
  {
  }

  /** Then writing the phase to both orientations completes the SetKPhase action. */
  lemma PhaseWrites(t: Table, p: Key, i: nat, v: real, ph: real)
    requires Paired(t, p) && i < |t[p]|
    ensures var t1 := WriteAt(t, p, i, SetK(v));
            WithPhase(WithPhase(t1, p, i, ph), Reverse(p), i, ph) == WriteAt(t, p, i, SetKPhase(v, ph))
  {
    var t1 := WriteAt(t, p, i, SetK(v));
    var u := WithPhase(WithPhase(t1, p, i, ph), Reverse(p), i, ph);
    var w := WriteAt(t, p, i, SetKPhase(v, ph));
    assert u[p] == w[p];
    assert u[Reverse(p)] == w[Reverse(p)];
  }

  lemma KeepWrites(t: Table, p: Key, i: nat)
    requires Paired(t, p) && i < |t[p]|
    ensures WriteAt(t, p, i, Keep) == t
  {
    assert t[p][i := t[p][i]] == t[p];
    assert t[Reverse(p)][i := t[Reverse(p)][i]] == t[Reverse(p)];
  }

  /** Handling index i extends the handled prefix by one. */
  lemma PrefixStep(t: Table, fm: FitModel, lat: Latent, p: Key, i: nat)
    requires TorsionReady(t, fm, lat, p) && i < |t[p]|
    ensures UpdatePrefix(t, fm, lat, p, i + 1)
            == WriteAt(UpdatePrefix(t, fm, lat, p, i), p, i, ActionAt(fm, lat, p, t[p], i))
  {
    var a := ActionAt(fm, lat, p, t[p], i);
    var u := UpdatePrefix(t, fm, lat, p, i);
    var v := UpdatePrefix(t, fm, lat, p, i + 1);
    var w := WriteAt(u, p, i, a);
    ApplyTwice(t[p][i], a);
    assert w[p] == v[p];
    assert w[Reverse(p)] == v[Reverse(p)];
  }

  /** Before the loop nothing is written. */
  lemma PrefixZero(t: Table, fm: FitModel, lat: Latent, p: Key)
    requires TorsionReady(t, fm, lat, p)
    ensures UpdatePrefix(t, fm, lat, p, 0) == t
  {
    var u := UpdatePrefix(t, fm, lat, p, 0);
    assert u[p] == t[p];
    assert u[Reverse(p)] == t[Reverse(p)];
  }

  /** Past the break nothing more is written. */
  lemma PrefixPastBreak(t: Table, fm: FitModel, lat: Latent, p: Key, n: nat)
    requires TorsionReady(t, fm, lat, p)
    requires BreakIndex(fm, lat, p, t[p]) < n
    ensures UpdatePrefix(t, fm, lat, p, n) == UpdateTorsion(t, fm, lat, p)
  {
    var u := UpdatePrefix(t, fm, lat, p, n);
    var v := UpdateTorsion(t, fm, lat, p);
    assert u[p] == v[p];
    assert u[Reverse(p)] == v[Reverse(p)];
  }

  /**
   The standard variant's loop body for term i of torsion p. It reports
   whether the loop leaves the torsion, which it does right after writing
   a 0 or 180 phase.
   */
  method UpdateTermStandard(param: ParameterSet, fm: FitModel, lat: Latent, p: Key, i: nat) returns (stop: bool)
    requires fm.variant.Standard? && Paired(param.dihedralTypes, p) && i < |param.dihedralTypes[p]|
    requires BitsReady(lat, p) && TermReady(fm, lat, p, param.dihedralTypes[p][i].per)
    modifies param
    ensures param.dihedralTypes
            == WriteAt(old(param.dihedralTypes), p, i, RawAction(fm, lat, p, old(param.dihedralTypes)[p][i].per))
    ensures stop == Breaks(fm, lat, p, old(param.dihedralTypes)[p][i].per)
  {
    ghost var cur := param.dihedralTypes;
    var reverseP := Reverse(p);
    var m := param.dihedralTypes[p][i].per;
    stop := false;
    if HasBit(lat.bitstring[p], m) || fm.decoupleN {
      if m == 5 {
        KeepWrites(cur, p, i);
        return;
      }
      var k := lat.k[(p, m)];
      SetPhiK(param, p, i, k);
      SetPhiK(param, reverseP, i, k);
      PhiKWrites(cur, p, i, k);
      var indicator := lat.phase[(p, m)];
      if indicator == 1.0 {
        SetPhase(param, p, i, 180.0);
        SetPhase(param, reverseP, i, 180.0);
        PhaseWrites(cur, p, i, k, 180.0);
        stop := true;
        return;
      }
      if indicator == 0.0 {
        SetPhase(param, p, i, 0.0);
        SetPhase(param, reverseP, i, 0.0);
        PhaseWrites(cur, p, i, k, 0.0);
        stop := true;
        return;
      }
    } else {
      SetPhiK(param, p, i, 0.0);
      SetPhiK(param, reverseP, i, 0.0);
      PhiKWrites(cur, p, i, 0.0);
      DisableWrites(cur, p, i);
    }
  }

  /** Up to the break the action at i is the raw one; the loop stops exactly at the break. */
  lemma BreakStep(fm: FitModel, lat: Latent, p: Key, ts: seq<Term>, i: nat)
    requires BitsReady(lat, p) && TermsReady(fm, lat, p, ts)
    requires i < |ts| && i <= BreakIndex(fm, lat, p, ts)
    ensures ActionAt(fm, lat, p, ts, i) == RawAction(fm, lat, p, ts[i].per)
    ensures Breaks(fm, lat, p, ts[i].per) ==> BreakIndex(fm, lat, p, ts) == i
    ensures !Breaks(fm, lat, p, ts[i].per) ==> i + 1 <= BreakIndex(fm, lat, p, ts)
  {
  }

  /** The standard variant's loop over one torsion, leaving it after the first 0/180 phase. */
  method UpdateTorsionStandard(param: ParameterSet, fm: FitModel, lat: Latent, p: Key)
    requires fm.variant.Standard? && TorsionReady(param.dihedralTypes, fm, lat, p)
    modifies param
    ensures param.dihedralTypes == UpdateTorsion(old(param.dihedralTypes), fm, lat, p)
  {
    ghost var t := param.dihedralTypes;
    var n := |param.dihedralTypes[p]|;
    PrefixZero(t, fm, lat, p);
    for i := 0 to n
      invariant param.dihedralTypes == UpdatePrefix(t, fm, lat, p, i)
      invariant i <= BreakIndex(fm, lat, p, t[p])
    {
      UpdatePrefixShape(t, fm, lat, p, i);
      PrefixStep(t, fm, lat, p, i);
      assert param.dihedralTypes[p][i] == t[p][i];
      BreakStep(fm, lat, p, t[p], i);
      var stop := UpdateTermStandard(param, fm, lat, p, i);
      if stop {
        PrefixPastBreak(t, fm, lat, p, i + 1);
        break;
      }
    }
  }

  /** The continuous-phase variant's loop: force constant and phase angle for every enabled term. */
  method UpdateTorsionContinuous(param: ParameterSet, fm: FitModel, lat: Latent, p: Key)
    requires fm.variant.ContinuousPhase? && TorsionReady(param.dihedralTypes, fm, lat, p)
    modifies param
    ensures param.dihedralTypes == UpdateTorsion(old(param.dihedralTypes), fm, lat, p)
  {
    ghost var t := param.dihedralTypes;
    var bitstring := lat.bitstring[p];
    var reverseP := Reverse(p);
    var n := |param.dihedralTypes[p]|;
    PrefixZero(t, fm, lat, p);
    assert BreakIndex(fm, lat, p, t[p]) == n;
    for i := 0 to n
      invariant param.dihedralTypes == UpdatePrefix(t, fm, lat, p, i)
    {
      PrefixStep(t, fm, lat, p, i);
      ghost var cur := param.dihedralTypes;
      var m := param.dihedralTypes[p][i].per;
      assert m == t[p][i].per;
      if HasBit(bitstring, m) || fm.decoupleN {
        if m == 5 {
          KeepWrites(cur, p, i);
          continue;
        }
        var k := lat.k[(p, m)];
        SetPhiK(param, p, i, k);
        SetPhiK(param, reverseP, i, k);
        PhiKWrites(cur, p, i, k);
        var phase := lat.phase[(p, m)];
        SetPhase(param, p, i, phase);
        SetPhase(param, reverseP, i, phase);
        PhaseWrites(cur, p, i, k, phase);
      } else {
        SetPhiK(param, p, i, 0.0);
        SetPhiK(param, reverseP, i, 0.0);
        PhiKWrites(cur, p, i, 0.0);
        DisableWrites(cur, p, i);
      }
    }
  }

  /** The eliminated-phase variant's loop: force constants only. */
  method UpdateTorsionEliminate(param: ParameterSet, fm: FitModel, lat: Latent, p: Key)
    requires fm.variant.EliminatePhase? && TorsionReady(param.dihedralTypes, fm, lat, p)
    modifies param
    ensures param.dihedralTypes == UpdateTorsion(old(param.dihedralTypes), fm, lat, p)
  {
    ghost var t := param.dihedralTypes;
    var bitstring := lat.bitstring[p];
    var reverseP := Reverse(p);
    var n := |param.dihedralTypes[p]|;
    PrefixZero(t, fm, lat, p);
    assert BreakIndex(fm, lat, p, t[p]) == n;
    for i := 0 to n
      invariant param.dihedralTypes == UpdatePrefix(t, fm, lat, p, i)
    {
      PrefixStep(t, fm, lat, p, i);
      ghost var cur := param.dihedralTypes;
      var m := param.dihedralTypes[p][i].per;
      assert m == t[p][i].per;
      if HasBit(bitstring, m) || fm.decoupleN {
        if m == 5 && !fm.variant.sampleN5 {
          KeepWrites(cur, p, i);
          continue;
        }
        var k := lat.k[(p, m)];
        SetPhiK(param, p, i, k);
        SetPhiK(param, reverseP, i, k);
        PhiKWrites(cur, p, i, k);
      } else {
        SetPhiK(param, p, i, 0.0);
        SetPhiK(param, reverseP, i, 0.0);
        PhiKWrites(cur, p, i, 0.0);
        DisableWrites(cur, p, i);
      }
    }
  }

  /** The loop of the model's own class (a method override in the Python classes). */
  method UpdateTorsionVariant(param: ParameterSet, fm: FitModel, lat: Latent, p: Key)
    requires TorsionReady(param.dihedralTypes, fm, lat, p)
    modifies param
    ensures param.dihedralTypes == UpdateTorsion(old(param.dihedralTypes), fm, lat, p)
  {
    match fm.variant
    case Standard => UpdateTorsionStandard(param, fm, lat, p);
    case ContinuousPhase => UpdateTorsionContinuous(param, fm, lat, p);
    case EliminatePhase(_) => UpdateTorsionEliminate(param, fm, lat, p);
  }

  /** One step of the fold over the selection, with the readiness it needs afterwards. */
  lemma UpdateAllStep(t0: Table, t: Table, fm: FitModel, lat: Latent, ps: seq<Key>, a: nat)
    requires Ready(t0, fm, lat, ps) && SameShape(t0, t) && a < |ps|
    ensures Ready(t, fm, lat, ps[a..])
    ensures SameShape(t0, UpdateTorsion(t, fm, lat, ps[a]))
    ensures Ready(UpdateTorsion(t, fm, lat, ps[a]), fm, lat, ps[a + 1..])
    ensures UpdateAll(t, fm, lat, ps[a..]) == UpdateAll(UpdateTorsion(t, fm, lat, ps[a]), fm, lat, ps[a + 1..])
  {
    ReadyShape(t0, t, fm, lat, ps);
    var t1 := UpdateTorsion(t, fm, lat, ps[a]);
    UpdatePrefixShape(t, fm, lat, ps[a], |t[ps[a]]|);
    SameShapeTrans(t0, t, t1);
    ReadyShape(t0, t1, fm, lat, ps);
    assert ps[a..][0] == ps[a] && ps[a..][1..] == ps[a + 1..];
  }

  /**
   update_param: every selected torsion in order, by the variant's own loop.
   The result is the reference definition UpdateAll.
   */
  method UpdateParam(fm: FitModel, lat: Latent, param: ParameterSet)
    requires Ready(param.dihedralTypes, fm, lat, fm.parametersToOptimize)
    modifies param
    ensures param.dihedralTypes == UpdateAll(old(param.dihedralTypes), fm, lat, fm.parametersToOptimize)
  {
    ghost var t0 := param.dihedralTypes;
    var ps := fm.parametersToOptimize;
    assert ps[0..] == ps;
    for a := 0 to |ps|
      invariant SameShape(t0, param.dihedralTypes)
      invariant a < |ps| ==> Ready(param.dihedralTypes, fm, lat, ps[a..])
      invariant UpdateAll(param.dihedralTypes, fm, lat, ps[a..]) == UpdateAll(t0, fm, lat, ps)
    {
      UpdateAllStep(t0, param.dihedralTypes, fm, lat, ps, a);
      UpdateTorsionVariant(param, fm, lat, ps[a]);
    }
    assert ps[|ps|..] == [];
  }
}
