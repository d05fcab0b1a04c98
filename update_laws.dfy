/**
 What update_param guarantees about the store, proved on the reference
 definition UpdateAll that the update methods are shown to compute.
 */
module UpdateLaws {
  import opened Store
  import opened Bitstring
  import opened Update

  lemma TorsionReadyShape(t1: Table, t2: Table, fm: FitModel, lat: Latent, p: Key)
    requires SameShape(t1, t2) && TorsionReady(t1, fm, lat, p)
    ensures TorsionReady(t2, fm, lat, p)
  {
    ReadyShape(t1, t2, fm, lat, [p]);
    assert TorsionReady(t2, fm, lat, [p][0]);
  }

  /**
   One torsion's update, index by index: forward and reversed term i both
   receive the action at i, the reversed list's extra tail and every other
   key are left alone.
   */
  lemma UpdateTorsionAt(t: Table, fm: FitModel, lat: Latent, p: Key)
    requires TorsionReady(t, fm, lat, p)
    ensures var r := UpdateTorsion(t, fm, lat, p);
            && r.Keys == t.Keys
            && (forall i :: 0 <= i < |t[p]| ==>
                  && r[p][i] == Apply(t[p][i], ActionAt(fm, lat, p, t[p], i))
                  && r[Reverse(p)][i] == Apply(t[Reverse(p)][i], ActionAt(fm, lat, p, t[p], i)))
            && (forall i :: |t[p]| <= i < |t[Reverse(p)]| ==> r[Reverse(p)][i] == t[Reverse(p)][i])
            && (forall k :: k in t && !Touches(p, k) ==> r[k] == t[k])
  {
  }

  /** One torsion's update reads only the two lists it writes. */
  lemma UpdateTorsionLocal(s1: Table, s2: Table, fm: FitModel, lat: Latent, p: Key)
    requires TorsionReady(s1, fm, lat, p) && TorsionReady(s2, fm, lat, p)
    requires s1[p] == s2[p] && s1[Reverse(p)] == s2[Reverse(p)]
    ensures UpdateTorsion(s1, fm, lat, p)[p] == UpdateTorsion(s2, fm, lat, p)[p]
    ensures UpdateTorsion(s1, fm, lat, p)[Reverse(p)] == UpdateTorsion(s2, fm, lat, p)[Reverse(p)]
  {
  }

  /** update_param never adds or removes keys or terms and never changes a periodicity. */
  lemma {:induction false} UpdateAllShape(t: Table, fm: FitModel, lat: Latent, ps: seq<Key>)
    requires Ready(t, fm, lat, ps)
    ensures SameShape(t, UpdateAll(t, fm, lat, ps))
    decreases |ps|
  {
    if ps != [] {
      var t1 := UpdateTorsion(t, fm, lat, ps[0]);
      UpdatePrefixShape(t, fm, lat, ps[0], |t[ps[0]]|);
      ReadyShape(t, t1, fm, lat, ps[1..]);
      UpdateAllShape(t1, fm, lat, ps[1..]);
      SameShapeTrans(t, t1, UpdateAll(t1, fm, lat, ps[1..]));
    }
  }

  /** Keys that no selected torsion touches come out of update_param as they went in. */
  lemma {:induction false} UpdateAllUntouched(t: Table, fm: FitModel, lat: Latent, ps: seq<Key>, k: Key)
    requires Ready(t, fm, lat, ps) && k in t && !TouchedBy(ps, k)
    ensures SameShape(t, UpdateAll(t, fm, lat, ps))
    ensures UpdateAll(t, fm, lat, ps)[k] == t[k]
    decreases |ps|
  {
    UpdateAllShape(t, fm, lat, ps);
    if ps != [] {
      var t1 := UpdateTorsion(t, fm, lat, ps[0]);
      UpdatePrefixShape(t, fm, lat, ps[0], |t[ps[0]]|);
      ReadyShape(t, t1, fm, lat, ps[1..]);
      assert !Touches(ps[0], k);
      UpdateTorsionAt(t, fm, lat, ps[0]);
      assert t1[k] == t[k];
      forall b | 0 <= b < |ps[1..]|
        ensures !Touches(ps[1..][b], k)
      {
        assert ps[1..][b] == ps[b + 1];
      }
      UpdateAllUntouched(t1, fm, lat, ps[1..], k);
    }
  }

  /** With a distinct selection, a selected key ends up as its own torsion's update makes it. */
  lemma {:induction false} UpdateAllSelected(t: Table, fm: FitModel, lat: Latent, ps: seq<Key>, a: nat, k: Key)
    requires Ready(t, fm, lat, ps) && Distinct(ps) && a < |ps| && Touches(ps[a], k)
    ensures SameShape(t, UpdateAll(t, fm, lat, ps))
    ensures UpdateAll(t, fm, lat, ps)[k] == UpdateTorsion(t, fm, lat, ps[a])[k]
    decreases |ps|
  {
    UpdateAllShape(t, fm, lat, ps);
    var p := ps[0];
    var t1 := UpdateTorsion(t, fm, lat, p);
    UpdatePrefixShape(t, fm, lat, p, |t[p]|);
    ReadyShape(t, t1, fm, lat, ps[1..]);
    assert UpdateAll(t, fm, lat, ps) == UpdateAll(t1, fm, lat, ps[1..]);
    if a == 0 {
      forall b | 0 <= b < |ps[1..]|
        ensures !Touches(ps[1..][b], k)
      {
        DistinctApart(ps, 0, b + 1, k);
      }
      UpdateAllUntouched(t1, fm, lat, ps[1..], k);
    } else {
      DistinctTail(ps);
      assert ps[1..][a - 1] == ps[a];
      UpdateAllSelected(t1, fm, lat, ps[1..], a - 1, k);
      DistinctApart(ps, a, 0, ps[a]);
      DistinctApart(ps, a, 0, Reverse(ps[a]));
      UpdateTorsionAt(t, fm, lat, p);
      assert t1[ps[a]] == t[ps[a]] && t1[Reverse(ps[a])] == t[Reverse(ps[a])];
      TorsionReadyShape(t, t1, fm, lat, ps[a]);
      UpdateTorsionLocal(t1, t, fm, lat, ps[a]);
    }
  }

  /**
   With a distinct selection, each selected key ends up as its own torsion's
   update makes it, and every unselected key is untouched.
   */
  lemma UpdateAllLocal(t: Table, fm: FitModel, lat: Latent, ps: seq<Key>)
    requires Ready(t, fm, lat, ps) && Distinct(ps)
    ensures UpdateAll(t, fm, lat, ps).Keys == t.Keys
    ensures forall a, k :: 0 <= a < |ps| && Touches(ps[a], k) ==>
              UpdateAll(t, fm, lat, ps)[k] == UpdateTorsion(t, fm, lat, ps[a])[k]
    ensures forall k :: k in t && !TouchedBy(ps, k) ==> k in UpdateAll(t, fm, lat, ps) && UpdateAll(t, fm, lat, ps)[k] == t[k]
  {
    UpdateAllShape(t, fm, lat, ps);
    forall a, k | 0 <= a < |ps| && Touches(ps[a], k)
      ensures UpdateAll(t, fm, lat, ps)[k] == UpdateTorsion(t, fm, lat, ps[a])[k]
    {
      UpdateAllSelected(t, fm, lat, ps, a, k);
    }
    forall k | k in t && !TouchedBy(ps, k)
      ensures UpdateAll(t, fm, lat, ps)[k] == t[k]
    {
      UpdateAllUntouched(t, fm, lat, ps, k);
    }
  }

  /** The per-term view of update_param on a distinct selection. */
  lemma UpdateAllTerm(t: Table, fm: FitModel, lat: Latent, ps: seq<Key>, a: nat, i: nat)
    requires Ready(t, fm, lat, ps) && Distinct(ps) && a < |ps|
    requires i < |t[ps[a]]|
    ensures SameShape(t, UpdateAll(t, fm, lat, ps))
    ensures var p := ps[a];
            var r := UpdateAll(t, fm, lat, ps);
            var act := ActionAt(fm, lat, p, t[p], i);
            && r[p][i] == Apply(t[p][i], act)
            && r[Reverse(p)][i] == Apply(t[Reverse(p)][i], act)
  {
    var p := ps[a];
    assert TorsionReady(t, fm, lat, p);
    UpdateAllShape(t, fm, lat, ps);
    UpdateAllLocal(t, fm, lat, ps);
    UpdateTorsionAt(t, fm, lat, p);
  }

  /** BreakIndex looks only at periodicities. */
  lemma {:induction false} BreakIndexPers(fm: FitModel, lat: Latent, p: Key, ts1: seq<Term>, ts2: seq<Term>)
    requires BitsReady(lat, p) && TermsReady(fm, lat, p, ts1) && TermsReady(fm, lat, p, ts2)
    requires |ts1| == |ts2| && forall i :: 0 <= i < |ts1| ==> ts1[i].per == ts2[i].per
    ensures BreakIndex(fm, lat, p, ts1) == BreakIndex(fm, lat, p, ts2)
    decreases |ts1|
  {
    if ts1 != [] {
      BreakIndexPers(fm, lat, p, ts1[1..], ts2[1..]);
    }
  }

  /** Updating one torsion twice in a row is updating it once. */
  lemma UpdateTorsionTwice(t: Table, fm: FitModel, lat: Latent, p: Key)
    requires TorsionReady(t, fm, lat, p)
    ensures var r := UpdateTorsion(t, fm, lat, p);
            TorsionReady(r, fm, lat, p) && UpdateTorsion(r, fm, lat, p) == r
  {
    var r := UpdateTorsion(t, fm, lat, p);
    UpdatePrefixShape(t, fm, lat, p, |t[p]|);
    TorsionReadyShape(t, r, fm, lat, p);
    var r2 := UpdateTorsion(r, fm, lat, p);
    UpdateTorsionAt(t, fm, lat, p);
    UpdateTorsionAt(r, fm, lat, p);
    BreakIndexPers(fm, lat, p, t[p], r[p]);
    forall i | 0 <= i < |t[p]|
      ensures ActionAt(fm, lat, p, r[p], i) == ActionAt(fm, lat, p, t[p], i)
      ensures r2[p][i] == r[p][i] && r2[Reverse(p)][i] == r[Reverse(p)][i]
    {
      ApplyTwice(t[p][i], ActionAt(fm, lat, p, t[p], i));
      ApplyTwice(t[Reverse(p)][i], ActionAt(fm, lat, p, t[p], i));
    }
    assert r2[p] == r[p];
    assert r2[Reverse(p)] == r[Reverse(p)];
  }

  /** A second update_param leaves each selected torsion's lists as the first left them. */
  lemma UpdateTwiceAt(t: Table, fm: FitModel, lat: Latent, ps: seq<Key>, a: nat, k: Key)
    requires Ready(t, fm, lat, ps) && Distinct(ps) && a < |ps| && Touches(ps[a], k)
    ensures SameShape(t, UpdateAll(t, fm, lat, ps))
    ensures Ready(UpdateAll(t, fm, lat, ps), fm, lat, ps)
    ensures SameShape(UpdateAll(t, fm, lat, ps), UpdateAll(UpdateAll(t, fm, lat, ps), fm, lat, ps))
    ensures UpdateAll(UpdateAll(t, fm, lat, ps), fm, lat, ps)[k] == UpdateAll(t, fm, lat, ps)[k]
  {
    var p := ps[a];
    var r := UpdateAll(t, fm, lat, ps);
    UpdateAllShape(t, fm, lat, ps);
    ReadyShape(t, r, fm, lat, ps);
    UpdateAllShape(r, fm, lat, ps);
    UpdateAllSelected(t, fm, lat, ps, a, p);
    UpdateAllSelected(t, fm, lat, ps, a, Reverse(p));
    UpdateAllSelected(r, fm, lat, ps, a, k);
    assert TorsionReady(t, fm, lat, p) && TorsionReady(r, fm, lat, p);
    var u := UpdateTorsion(t, fm, lat, p);
    UpdateTorsionTwice(t, fm, lat, p);
    UpdateTorsionLocal(r, u, fm, lat, p);
  }

  /** Running update_param a second time with the same latent values changes nothing. */
  lemma UpdateParamIdempotent(t: Table, fm: FitModel, lat: Latent)
    requires Ready(t, fm, lat, fm.parametersToOptimize) && Distinct(fm.parametersToOptimize)
    ensures var r := UpdateAll(t, fm, lat, fm.parametersToOptimize);
            Ready(r, fm, lat, fm.parametersToOptimize) && UpdateAll(r, fm, lat, fm.parametersToOptimize) == r
  {
    var ps := fm.parametersToOptimize;
    var r := UpdateAll(t, fm, lat, ps);
    UpdateAllShape(t, fm, lat, ps);
    ReadyShape(t, r, fm, lat, ps);
    var r2 := UpdateAll(r, fm, lat, ps);
    UpdateAllShape(r, fm, lat, ps);
    forall k | k in r
      ensures r2[k] == r[k]
    {
      if a :| 0 <= a < |ps| && Touches(ps[a], k) {
        UpdateTwiceAt(t, fm, lat, ps, a, k);
      } else {
        UpdateAllUntouched(r, fm, lat, ps, k);
      }
    }
  }

  /** A term is written by update_param: it is not after the break and not a skipped period 5. */
  predicate Written(fm: FitModel, lat: Latent, p: Key, ts: seq<Term>, i: nat)
    requires BitsReady(lat, p) && TermsReady(fm, lat, p, ts) && i < |ts|
  {
    i <= BreakIndex(fm, lat, p, ts)
    && !(Enabled(fm, lat, p, ts[i].per) && Skipped(fm.variant, ts[i].per))
  }

  /**
   Every term update_param writes has the same force constant in the forward
   and reversed lists afterwards, and the same phase when a phase is written.
   */
  lemma UpdateParamAgreement(t: Table, fm: FitModel, lat: Latent, a: nat, i: nat)
    requires Ready(t, fm, lat, fm.parametersToOptimize) && Distinct(fm.parametersToOptimize)
    requires a < |fm.parametersToOptimize| && i < |t[fm.parametersToOptimize[a]]|
    requires TorsionReady(t, fm, lat, fm.parametersToOptimize[a])
    requires Written(fm, lat, fm.parametersToOptimize[a], t[fm.parametersToOptimize[a]], i)
    ensures SameShape(t, UpdateAll(t, fm, lat, fm.parametersToOptimize))
    ensures var p := fm.parametersToOptimize[a];
            var r := UpdateAll(t, fm, lat, fm.parametersToOptimize);
            && r[p][i].phiK == r[Reverse(p)][i].phiK
            && (RawAction(fm, lat, p, t[p][i].per).SetKPhase? ==> r[p][i].phase == r[Reverse(p)][i].phase)
  {
    UpdateAllTerm(t, fm, lat, fm.parametersToOptimize, a, i);
  }

  /**
   Gating: a term whose periodicity bit is clear (and decoupling is off)
   gets force constant 0 in both orientations and keeps its phase and
   periodicity.
   */
  lemma UpdateParamDisables(t: Table, fm: FitModel, lat: Latent, a: nat, i: nat)
    requires Ready(t, fm, lat, fm.parametersToOptimize) && Distinct(fm.parametersToOptimize)
    requires a < |fm.parametersToOptimize| && i < |t[fm.parametersToOptimize[a]]|
    requires TorsionReady(t, fm, lat, fm.parametersToOptimize[a])
    requires i <= BreakIndex(fm, lat, fm.parametersToOptimize[a], t[fm.parametersToOptimize[a]])
    requires !HasBit(lat.bitstring[fm.parametersToOptimize[a]], t[fm.parametersToOptimize[a]][i].per)
    requires !fm.decoupleN
    ensures SameShape(t, UpdateAll(t, fm, lat, fm.parametersToOptimize))
    ensures var p := fm.parametersToOptimize[a];
            var r := UpdateAll(t, fm, lat, fm.parametersToOptimize);
            && r[p][i] == t[p][i].(phiK := 0.0)
            && r[Reverse(p)][i] == t[Reverse(p)][i].(phiK := 0.0)
  {
    UpdateAllTerm(t, fm, lat, fm.parametersToOptimize, a, i);
  }

  /**
   An enabled term that is not skipped gets its latent force constant in both
   orientations; with decoupling on this holds whatever the bitstring says.
   */
  lemma UpdateParamSetsK(t: Table, fm: FitModel, lat: Latent, a: nat, i: nat)
    requires Ready(t, fm, lat, fm.parametersToOptimize) && Distinct(fm.parametersToOptimize)
    requires a < |fm.parametersToOptimize| && i < |t[fm.parametersToOptimize[a]]|
    requires TorsionReady(t, fm, lat, fm.parametersToOptimize[a])
    requires i <= BreakIndex(fm, lat, fm.parametersToOptimize[a], t[fm.parametersToOptimize[a]])
    requires HasBit(lat.bitstring[fm.parametersToOptimize[a]], t[fm.parametersToOptimize[a]][i].per) || fm.decoupleN
    requires !Skipped(fm.variant, t[fm.parametersToOptimize[a]][i].per)
    ensures SameShape(t, UpdateAll(t, fm, lat, fm.parametersToOptimize))
    ensures var p := fm.parametersToOptimize[a];
            var m := t[p][i].per;
            var r := UpdateAll(t, fm, lat, fm.parametersToOptimize);
            && (p, m) in lat.k
            && r[p][i].phiK == lat.k[(p, m)]
            && r[Reverse(p)][i].phiK == lat.k[(p, m)]
  {
    UpdateAllTerm(t, fm, lat, fm.parametersToOptimize, a, i);
  }

  /**
   An enabled period-5 term is left exactly as it was, unless the model is
   the eliminated-phase variant sampling period 5.
   */
  lemma UpdateParamSkipsPeriod5(t: Table, fm: FitModel, lat: Latent, a: nat, i: nat)
    requires Ready(t, fm, lat, fm.parametersToOptimize) && Distinct(fm.parametersToOptimize)
    requires a < |fm.parametersToOptimize| && i < |t[fm.parametersToOptimize[a]]|
    requires TorsionReady(t, fm, lat, fm.parametersToOptimize[a])
    requires t[fm.parametersToOptimize[a]][i].per == 5
    requires HasBit(lat.bitstring[fm.parametersToOptimize[a]], 5) || fm.decoupleN
    requires !(fm.variant.EliminatePhase? && fm.variant.sampleN5)
    ensures SameShape(t, UpdateAll(t, fm, lat, fm.parametersToOptimize))
    ensures var p := fm.parametersToOptimize[a];
            var r := UpdateAll(t, fm, lat, fm.parametersToOptimize);
            r[p][i] == t[p][i] && r[Reverse(p)][i] == t[Reverse(p)][i]
  {
    UpdateAllTerm(t, fm, lat, fm.parametersToOptimize, a, i);
  }

  /**
   Standard variant: the term at which the loop breaks gets phase 180 when
   its indicator is 1 and phase 0 when it is 0, in both orientations, and
   every term after it is left exactly as it was.
   */
  lemma UpdateParamStandardBreak(t: Table, fm: FitModel, lat: Latent, a: nat, i: nat)
    requires fm.variant.Standard?
    requires Ready(t, fm, lat, fm.parametersToOptimize) && Distinct(fm.parametersToOptimize)
    requires a < |fm.parametersToOptimize| && i < |t[fm.parametersToOptimize[a]]|
    requires TorsionReady(t, fm, lat, fm.parametersToOptimize[a])
    ensures SameShape(t, UpdateAll(t, fm, lat, fm.parametersToOptimize))
    ensures var p := fm.parametersToOptimize[a];
            var m := t[p][i].per;
            var b := BreakIndex(fm, lat, p, t[p]);
            var r := UpdateAll(t, fm, lat, fm.parametersToOptimize);
            && (i == b ==>
                  && (p, m) in lat.phase
                  && (lat.phase[(p, m)] == 1.0 || lat.phase[(p, m)] == 0.0)
                  && r[p][i].phase == (if lat.phase[(p, m)] == 1.0 then 180.0 else 0.0)
                  && r[Reverse(p)][i].phase == r[p][i].phase)
            && (i > b ==> r[p][i] == t[p][i] && r[Reverse(p)][i] == t[Reverse(p)][i])
  {
    UpdateAllTerm(t, fm, lat, fm.parametersToOptimize, a, i);
  }

  /**
   Standard variant: before the break, an enabled term's indicator is
   neither 0 nor 1 and its phase is left as it was.
   */
  lemma UpdateParamStandardBeforeBreak(t: Table, fm: FitModel, lat: Latent, a: nat, i: nat)
    requires fm.variant.Standard?
    requires Ready(t, fm, lat, fm.parametersToOptimize) && Distinct(fm.parametersToOptimize)
    requires a < |fm.parametersToOptimize| && i < |t[fm.parametersToOptimize[a]]|
    requires TorsionReady(t, fm, lat, fm.parametersToOptimize[a])
    requires i < BreakIndex(fm, lat, fm.parametersToOptimize[a], t[fm.parametersToOptimize[a]])
    ensures SameShape(t, UpdateAll(t, fm, lat, fm.parametersToOptimize))
    ensures var p := fm.parametersToOptimize[a];
            var m := t[p][i].per;
            var r := UpdateAll(t, fm, lat, fm.parametersToOptimize);
            && r[p][i].phase == t[p][i].phase
            && r[Reverse(p)][i].phase == t[Reverse(p)][i].phase
            && (Enabled(fm, lat, p, m) && !Skipped(fm.variant, m) ==>
                  (p, m) in lat.phase && lat.phase[(p, m)] != 1.0 && lat.phase[(p, m)] != 0.0)
  {
    UpdateAllTerm(t, fm, lat, fm.parametersToOptimize, a, i);
  }

  /**
   Continuous-phase variant: the loop never breaks, and every enabled term
   that is not a period 5 gets its latent phase angle in both orientations.
   */
  lemma UpdateParamContinuousPhase(t: Table, fm: FitModel, lat: Latent, a: nat, i: nat)
    requires fm.variant.ContinuousPhase?
    requires Ready(t, fm, lat, fm.parametersToOptimize) && Distinct(fm.parametersToOptimize)
    requires a < |fm.parametersToOptimize| && i < |t[fm.parametersToOptimize[a]]|
    requires TorsionReady(t, fm, lat, fm.parametersToOptimize[a])
    requires HasBit(lat.bitstring[fm.parametersToOptimize[a]], t[fm.parametersToOptimize[a]][i].per) || fm.decoupleN
    requires t[fm.parametersToOptimize[a]][i].per != 5
    ensures BreakIndex(fm, lat, fm.parametersToOptimize[a], t[fm.parametersToOptimize[a]])
            == |t[fm.parametersToOptimize[a]]|
    ensures SameShape(t, UpdateAll(t, fm, lat, fm.parametersToOptimize))
    ensures var p := fm.parametersToOptimize[a];
            var m := t[p][i].per;
            var r := UpdateAll(t, fm, lat, fm.parametersToOptimize);
            && (p, m) in lat.k && (p, m) in lat.phase
            && r[p][i].phiK == lat.k[(p, m)] && r[Reverse(p)][i].phiK == lat.k[(p, m)]
            && r[p][i].phase == lat.phase[(p, m)] && r[Reverse(p)][i].phase == lat.phase[(p, m)]
  {
    UpdateAllTerm(t, fm, lat, fm.parametersToOptimize, a, i);
  }

  /** Eliminated-phase variant: one torsion's update writes no phase anywhere. */
  lemma EliminateTorsionKeepsPhases(t: Table, fm: FitModel, lat: Latent, p: Key)
    requires fm.variant.EliminatePhase? && TorsionReady(t, fm, lat, p)
    ensures SameShape(t, UpdateTorsion(t, fm, lat, p))
    ensures forall k, i :: k in t && 0 <= i < |t[k]| ==> UpdateTorsion(t, fm, lat, p)[k][i].phase == t[k][i].phase
  {
    UpdatePrefixShape(t, fm, lat, p, |t[p]|);
    UpdateTorsionAt(t, fm, lat, p);
  }

  /**
   Eliminated-phase variant: update_param never writes a phase, for any key
   and any index, whatever the selection.
   */
  lemma {:induction false} UpdateParamEliminateKeepsPhases(t: Table, fm: FitModel, lat: Latent, ps: seq<Key>)
    requires fm.variant.EliminatePhase? && Ready(t, fm, lat, ps)
    ensures SameShape(t, UpdateAll(t, fm, lat, ps))
    ensures forall k, i :: k in t && 0 <= i < |t[k]| ==> UpdateAll(t, fm, lat, ps)[k][i].phase == t[k][i].phase
    decreases |ps|
  {
    UpdateAllShape(t, fm, lat, ps);
    if ps != [] {
      var t1 := UpdateTorsion(t, fm, lat, ps[0]);
      ReadyShape(t, t1, fm, lat, ps[1..]);
      EliminateTorsionKeepsPhases(t, fm, lat, ps[0]);
      UpdateParamEliminateKeepsPhases(t1, fm, lat, ps[1..]);
      var r: Table := UpdateAll(t, fm, lat, ps);
      assert r == UpdateAll(t1, fm, lat, ps[1..]);
      forall k: Key, i: int | k in t && 0 <= i < |t[k]|
        ensures r[k][i].phase == t[k][i].phase
      {
        assert t1[k][i].phase == t[k][i].phase;
      }
    }
  }
}
