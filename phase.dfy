/**
 The eliminated-phase model's phase reset (_set_phase_0): before fitting,
 every phase of a selected torsion is set to 0 in both orientations, except
 for period-5 terms, which the loop passes over.
 */
module PhaseReset {
  import opened Store

  /** The store once the reset loop for torsion p has handled the indices below n. */
  function ZeroPrefix(t: Table, p: Key, n: nat): (r: Table)
    requires Paired(t, p)
    ensures r.Keys == t.Keys && |r[p]| == |t[p]| && |r[Reverse(p)]| == |t[Reverse(p)]|
  {
    var fwd := t[p];
    var rev := t[Reverse(p)];
    var fwd' := seq(|fwd|, i requires 0 <= i < |fwd| =>
                  if i < n && fwd[i].per != 5 then fwd[i].(phase := 0.0) else fwd[i]);
    var rev' := seq(|rev|, i requires 0 <= i < |rev| =>
                  if i < n && i < |fwd| && fwd[i].per != 5 then rev[i].(phase := 0.0) else rev[i]);
    t[p := fwd'][Reverse(p) := rev']
  }

  /** The reset of one selected torsion. */
  function ZeroTorsion(t: Table, p: Key): Table
    requires Paired(t, p)
  {
    ZeroPrefix(t, p, |t[p]|)
  }

  lemma ZeroPrefixShape(t: Table, p: Key, n: nat)
    requires Paired(t, p)
    ensures SameShape(t, ZeroPrefix(t, p, n))
  {
  }

  /** The reset of all selected torsions, in order. */
  function ZeroAll(t: Table, ps: seq<Key>): Table
    requires AllPaired(t, ps)
    decreases |ps|
  {
    if ps == [] then t
    else
      var t1 := ZeroTorsion(t, ps[0]);
      ZeroPrefixShape(t, ps[0], |t[ps[0]]|);
      SameShapePaired(t, t1, ps[1..]);
      ZeroAll(t1, ps[1..])
  }

  lemma ZeroPrefixZero(t: Table, p: Key)
    requires Paired(t, p)
    ensures ZeroPrefix(t, p, 0) == t
  {
    var u := ZeroPrefix(t, p, 0);
    assert u[p] == t[p];
    assert u[Reverse(p)] == t[Reverse(p)];
  }

  /** Handling index i resets its two phases, unless it is a period 5. */
  lemma ZeroPrefixStep(t: Table, p: Key, i: nat)
    requires Paired(t, p) && i < |t[p]|
    ensures var u := ZeroPrefix(t, p, i);
            ZeroPrefix(t, p, i + 1)
            == if t[p][i].per == 5 then u
               else WithPhase(WithPhase(u, p, i, 0.0), Reverse(p), i, 0.0)
  {
    var u := ZeroPrefix(t, p, i);
    var v := ZeroPrefix(t, p, i + 1);
    if t[p][i].per == 5 {
      assert v[p] == u[p];
      assert v[Reverse(p)] == u[Reverse(p)];
    } else {
      var w := WithPhase(WithPhase(u, p, i, 0.0), Reverse(p), i, 0.0);
      assert w[p] == v[p];
      assert w[Reverse(p)] == v[Reverse(p)];
    }
  }

  /** _set_phase_0's loop over one torsion. */
  method SetPhase0Torsion(param: ParameterSet, p: Key)
    requires Paired(param.dihedralTypes, p)
    modifies param
    ensures param.dihedralTypes == ZeroTorsion(old(param.dihedralTypes), p)
  {
    ghost var t := param.dihedralTypes;
    var reverseP := Reverse(p);
    var n := |param.dihedralTypes[p]|;
    ZeroPrefixZero(t, p);
    for i := 0 to n
      invariant param.dihedralTypes == ZeroPrefix(t, p, i)
    {
      ZeroPrefixStep(t, p, i);
      var m := param.dihedralTypes[p][i].per;
      assert m == t[p][i].per;
      if m == 5 {
        continue;
      }
      SetPhase(param, p, i, 0.0);
      SetPhase(param, reverseP, i, 0.0);
    }
  }

  /** _set_phase_0: every selected torsion in order. */
  method SetPhase0(param: ParameterSet, parametersToOptimize: seq<Key>)
    requires AllPaired(param.dihedralTypes, parametersToOptimize)
    modifies param
    ensures param.dihedralTypes == ZeroAll(old(param.dihedralTypes), parametersToOptimize)
  {
    ghost var t0 := param.dihedralTypes;
    var ps := parametersToOptimize;
    assert ps[0..] == ps;
    for a := 0 to |ps|
      invariant SameShape(t0, param.dihedralTypes)
      invariant AllPaired(param.dihedralTypes, ps[a..])
      invariant ZeroAll(param.dihedralTypes, ps[a..]) == ZeroAll(t0, ps)
    {
      ghost var cur := param.dihedralTypes;
      assert ps[a..][0] == ps[a] && ps[a..][1..] == ps[a + 1..];
      SetPhase0Torsion(param, ps[a]);
      ZeroPrefixShape(cur, ps[a], |cur[ps[a]]|);
      SameShapeTrans(t0, cur, param.dihedralTypes);
      SameShapePaired(cur, param.dihedralTypes, ps[a + 1..]);
    }
    assert ps[|ps|..] == [];
  }

  /**
   The reset keeps every key, list length, periodicity and force constant,
   and every phase either stays or becomes 0.
   */
  lemma {:induction false} ZeroAllOnlyZeroes(t: Table, ps: seq<Key>)
    requires AllPaired(t, ps)
    ensures SameShape(t, ZeroAll(t, ps))
    ensures forall k, i :: k in t && 0 <= i < |t[k]| ==>
              && ZeroAll(t, ps)[k][i].phiK == t[k][i].phiK
              && (ZeroAll(t, ps)[k][i].phase == t[k][i].phase || ZeroAll(t, ps)[k][i].phase == 0.0)
    decreases |ps|
  {
    if ps != [] {
      var t1 := ZeroTorsion(t, ps[0]);
      ZeroPrefixShape(t, ps[0], |t[ps[0]]|);
      SameShapePaired(t, t1, ps[1..]);
      ZeroAllOnlyZeroes(t1, ps[1..]);
      var r: Table := ZeroAll(t, ps);
      assert r == ZeroAll(t1, ps[1..]);
      SameShapeTrans(t, t1, r);
      forall k: Key, i: int | k in t && 0 <= i < |t[k]|
        ensures r[k][i].phiK == t[k][i].phiK
        ensures r[k][i].phase == t[k][i].phase || r[k][i].phase == 0.0
      {
        assert t1[k][i].phiK == t[k][i].phiK;
        assert t1[k][i].phase == t[k][i].phase || t1[k][i].phase == 0.0;
      }
    }
  }

  /** A phase that is already 0 stays 0. */
  lemma ZeroAllKeepsZero(t: Table, ps: seq<Key>, k: Key, i: nat)
    requires AllPaired(t, ps) && k in t && i < |t[k]| && t[k][i].phase == 0.0
    ensures SameShape(t, ZeroAll(t, ps))
    ensures ZeroAll(t, ps)[k][i].phase == 0.0
  {
    ZeroAllOnlyZeroes(t, ps);
  }

  /**
   After _set_phase_0, every term of a selected torsion that is not a period
   5 has phase 0, in the forward list and in the reversed list at the same
   index. Repeated or mutually reversed selections do not change this.
   */
  lemma {:induction false} ZeroAllZeroes(t: Table, ps: seq<Key>, a: nat, i: nat)
    requires AllPaired(t, ps) && a < |ps| && i < |t[ps[a]]| && t[ps[a]][i].per != 5
    ensures SameShape(t, ZeroAll(t, ps))
    ensures ZeroAll(t, ps)[ps[a]][i].phase == 0.0
    ensures ZeroAll(t, ps)[Reverse(ps[a])][i].phase == 0.0
    decreases |ps|
  {
    ZeroAllOnlyZeroes(t, ps);
    var t1 := ZeroTorsion(t, ps[0]);
    ZeroPrefixShape(t, ps[0], |t[ps[0]]|);
    SameShapePaired(t, t1, ps[1..]);
    assert ZeroAll(t, ps) == ZeroAll(t1, ps[1..]);
    var p := ps[a];
    assert Paired(t, p);
    if a == 0 {
      assert t1[p][i].phase == 0.0 && t1[Reverse(p)][i].phase == 0.0;
      ZeroAllKeepsZero(t1, ps[1..], p, i);
      ZeroAllKeepsZero(t1, ps[1..], Reverse(p), i);
    } else {
      assert ps[1..][a - 1] == p;
      ZeroAllZeroes(t1, ps[1..], a - 1, i);
    }
  }

  /**
   A period-5 term of a selected torsion comes out of _set_phase_0 exactly as
   it went in, and so does the reversed term at the same index: the loop
   passes over both. The selection must be distinct, since another selected
   torsion with the same key would reset that key's terms by its own indices.
   */
  lemma {:induction false} ZeroAllKeeps5(t: Table, ps: seq<Key>, a: nat, i: nat)
    requires AllPaired(t, ps) && Distinct(ps) && a < |ps| && i < |t[ps[a]]| && t[ps[a]][i].per == 5
    ensures SameShape(t, ZeroAll(t, ps))
    ensures ZeroAll(t, ps)[ps[a]][i] == t[ps[a]][i]
    ensures ZeroAll(t, ps)[Reverse(ps[a])][i] == t[Reverse(ps[a])][i]
    decreases |ps|
  {
    ZeroAllOnlyZeroes(t, ps);
    var p := ps[a];
    var t1 := ZeroTorsion(t, ps[0]);
    ZeroPrefixShape(t, ps[0], |t[ps[0]]|);
    SameShapePaired(t, t1, ps[1..]);
    assert ZeroAll(t, ps) == ZeroAll(t1, ps[1..]);
    assert Paired(t, p);
    if a == 0 {
      assert t1[p][i] == t[p][i] && t1[Reverse(p)][i] == t[Reverse(p)][i];
      forall b | 0 <= b < |ps[1..]|
        ensures !Touches(ps[1..][b], p) && !Touches(ps[1..][b], Reverse(p))
      {
        assert ps[1..][b] == ps[b + 1];
        DistinctApart(ps, 0, b + 1, p);
        DistinctApart(ps, 0, b + 1, Reverse(p));
      }
      ZeroAllUntouched(t1, ps[1..], p);
      ZeroAllUntouched(t1, ps[1..], Reverse(p));
    } else {
      DistinctApart(ps, a, 0, p);
      DistinctApart(ps, a, 0, Reverse(p));
      assert t1[p] == t[p] && t1[Reverse(p)] == t[Reverse(p)];
      assert ps[1..][a - 1] == p;
      DistinctTail(ps);
      ZeroAllKeeps5(t1, ps[1..], a - 1, i);
    }
  }

  /** Keys no selected torsion touches are left exactly as they were. */
  lemma {:induction false} ZeroAllUntouched(t: Table, ps: seq<Key>, k: Key)
    requires AllPaired(t, ps) && k in t
    requires forall a :: 0 <= a < |ps| ==> !Touches(ps[a], k)
    ensures SameShape(t, ZeroAll(t, ps))
    ensures ZeroAll(t, ps)[k] == t[k]
    decreases |ps|
  {
    ZeroAllOnlyZeroes(t, ps);
    if ps != [] {
      var t1 := ZeroTorsion(t, ps[0]);
      ZeroPrefixShape(t, ps[0], |t[ps[0]]|);
      SameShapePaired(t, t1, ps[1..]);
      assert !Touches(ps[0], k);
      assert t1[k] == t[k];
      forall a | 0 <= a < |ps[1..]|
        ensures !Touches(ps[1..][a], k)
      {
        assert ps[1..][a] == ps[a + 1];
      }
      ZeroAllUntouched(t1, ps[1..], k);
    }
  }
}
