/**
 The part of the three constructors that touches the store and the latent
 values: the eliminated-phase model first resets phases, then every model
 creates its variables from the terms present, then pads the store with
 placeholders for the missing candidate periodicities.
 */
module Construct {
  import opened Store
  import opened Bitstring
  import opened Completion
  import opened Update
  import opened PhaseReset
  import opened Init
  import opened InitLaws

  /** The store the variables are read from: phases reset for the eliminated-phase model. */
  function ResetTable(fm: FitModel, t: Table): (r: Table)
    requires AllPaired(t, fm.parametersToOptimize)
    ensures AllPaired(r, fm.parametersToOptimize)
  {
    if fm.variant.EliminatePhase? then
      ZeroAllOnlyZeroes(t, fm.parametersToOptimize);
      SameShapePaired(t, ZeroAll(t, fm.parametersToOptimize), fm.parametersToOptimize);
      ZeroAll(t, fm.parametersToOptimize)
    else t
  }

  /** The latent values the constructor creates; None when it stops on an unbound phase variable. */
  function BuildLatent(fm: FitModel, t: Table): Option<Latent>
    requires AllPaired(t, fm.parametersToOptimize)
  {
    var r := InitAll(EmptyState, fm.variant, ResetTable(fm, t), fm.parametersToOptimize);
    if r.None? then None else Some(r.value.lat)
  }

  /** The store after a successful construction. */
  function BuildTable(fm: FitModel, t: Table): Table
    requires AllPaired(t, fm.parametersToOptimize)
  {
    AddMissingAll(ResetTable(fm, t), fm.parametersToOptimize, InitMultiplicities(fm.variant))
  }

  /**
   The constructor's effect on the store and the latent values. When the
   phase variable is unbound the constructor stops before padding the store.
   */
  method Construct(fm: FitModel, param: ParameterSet) returns (lat: Option<Latent>)
    requires AllPaired(param.dihedralTypes, fm.parametersToOptimize)
    modifies param
    ensures lat == BuildLatent(fm, old(param.dihedralTypes))
    ensures lat.Some? ==> param.dihedralTypes == BuildTable(fm, old(param.dihedralTypes))
    ensures lat.None? ==> param.dihedralTypes == ResetTable(fm, old(param.dihedralTypes))
  {
    ghost var t := param.dihedralTypes;
    var ps := fm.parametersToOptimize;
    if fm.variant.EliminatePhase? {
      SetPhase0(param, ps);
    }
    assert param.dihedralTypes == ResetTable(fm, t);
    lat := InitLatent(fm.variant, param, ps);
    if lat.None? {
      return;
    }
    AddMissing(param, ps, fm.variant.EliminatePhase? && fm.variant.sampleN5);
  }

  /**
   Periodicities update_param can handle: at least 1 (the bit mask is
   2^(m-1)), and at most 6 when decoupling makes every term read its
   variables.
   */
  predicate PersUsable(fm: FitModel, t: Table) {
    forall a, i :: 0 <= a < |fm.parametersToOptimize| && fm.parametersToOptimize[a] in t
                   && 0 <= i < |t[fm.parametersToOptimize[a]]| ==>
      var m := t[fm.parametersToOptimize[a]][i].per;
      1 <= m && (fm.decoupleN ==> m <= 6)
  }

  /**
   A term's variables exist whenever update_param reads them, whatever the
   bitstring's current value in 0..63: an enabled term that is not skipped
   has a candidate periodicity, since a bit above bit 5 is never set.
   */
  lemma TermReadyAt(fm: FitModel, lat: Latent, p: Key, m: int)
    requires BitsReady(lat, p) && 1 <= m && (fm.decoupleN ==> m <= 6)
    requires forall m' :: m' in InitMultiplicities(fm.variant) ==> (p, m') in lat.k
    requires !fm.variant.EliminatePhase? ==> forall m' :: m' in InitMultiplicities(fm.variant) ==> (p, m') in lat.phase
    ensures TermReady(fm, lat, p, m)
  {
    if Enabled(fm, lat, p, m) && !Skipped(fm.variant, m) && !fm.decoupleN && m > 6 {
      HasBitHigh(lat.bitstring[p], 6, m);
    }
  }

  /**
   A successful construction leaves everything update_param looks up in
   place, for every value the sampler gives the bitstrings: both orientations
   of every selected torsion, and a force constant (and, except for the
   eliminated-phase model, a phase) for every term that update_param will
   write. The sampler changes the values of the variables but never adds or
   removes one, so lat2 has the constructed key sets.
   */
  lemma ConstructReady(fm: FitModel, t: Table, lat2: Latent)
    requires AllPaired(t, fm.parametersToOptimize) && Distinct(fm.parametersToOptimize)
    requires PersUsable(fm, t)
    requires BuildLatent(fm, t).Some?
    requires lat2.k.Keys == BuildLatent(fm, t).value.k.Keys
    requires lat2.phase.Keys == BuildLatent(fm, t).value.phase.Keys
    requires forall a :: 0 <= a < |fm.parametersToOptimize| ==> BitsReady(lat2, fm.parametersToOptimize[a])
    ensures Ready(BuildTable(fm, t), fm, lat2, fm.parametersToOptimize)
  {
    var ps := fm.parametersToOptimize;
    var v := fm.variant;
    var ms := InitMultiplicities(v);
    var t1 := ResetTable(fm, t);
    var lat := BuildLatent(fm, t).value;
    var t2 := BuildTable(fm, t);
    if v.EliminatePhase? {
      ZeroAllOnlyZeroes(t, ps);
    }
    assert SameShape(t, t1);
    AddMissingOnlyAppends(t1, ps, ms);
    AddMissingCovers(t1, ps, ms);
    forall a | 0 <= a < |ps|
      ensures TorsionReady(t2, fm, lat2, ps[a])
    {
      var p := ps[a];
      InitAllRecords(EmptyState, v, t1, ps, a);
      assert Paired(t2, p);
      forall i | 0 <= i < |t2[p]|
        ensures TermReady(fm, lat2, p, t2[p][i].per)
      {
        var m := t2[p][i].per;
        if i < |t1[p]| {
          assert t1[p] <= t2[p];
          assert m == t1[p][i].per == t[p][i].per;
        } else {
          assert m in ms;
        }
        TermReadyAt(fm, lat2, p, m);
      }
    }
  }

  /** In particular update_param can run on the constructed latent values themselves. */
  lemma ConstructReadyInitial(fm: FitModel, t: Table)
    requires AllPaired(t, fm.parametersToOptimize) && Distinct(fm.parametersToOptimize)
    requires PersUsable(fm, t)
    requires BuildLatent(fm, t).Some?
    ensures Ready(BuildTable(fm, t), fm, BuildLatent(fm, t).value, fm.parametersToOptimize)
  {
    var ps := fm.parametersToOptimize;
    var t1 := ResetTable(fm, t);
    forall a | 0 <= a < |ps|
      ensures BitsReady(BuildLatent(fm, t).value, ps[a])
    {
      InitialBitstring(fm.variant, t1, ps, a);
    }
    ConstructReady(fm, t, BuildLatent(fm, t).value);
  }
}
