/**
 Missing-multiplicity completion (add_missing): for every selected torsion,
 every candidate periodicity that occurs neither on the forward list nor on
 the reversed list (at the forward indices) gets a zero placeholder term
 appended to both lists, so that the latent space has a fixed size.
 */
module Completion {
  import opened Store
  import opened Bitstring

  /**
   Periodicity j occurs among the terms the completion inspects: the
   forward terms and the reversed terms at the forward indices.
   */
  predicate Seen(fwd: seq<Term>, rev: seq<Term>, j: int)
    requires |fwd| <= |rev|
  {
    SeenUpTo(fwd, rev, |fwd|, j)
  }

  /** Periodicity j occurs at one of the first n forward or reversed terms. */
  predicate SeenUpTo(fwd: seq<Term>, rev: seq<Term>, n: nat, j: int)
    requires n <= |fwd| <= |rev|
  {
    exists i :: 0 <= i < n && (fwd[i].per == j || rev[i].per == j)
  }

  lemma SeenUpToStep(fwd: seq<Term>, rev: seq<Term>, n: nat, j: int)
    requires n < |fwd| <= |rev|
    ensures SeenUpTo(fwd, rev, n + 1, j) <==>
              SeenUpTo(fwd, rev, n, j) || fwd[n].per == j || rev[n].per == j
  {
    if fwd[n].per == j || rev[n].per == j {
      assert 0 <= n < n + 1 && (fwd[n].per == j || rev[n].per == j);
    }
  }

  /** The candidates, in order, that have not been seen. */
  function Missing(fwd: seq<Term>, rev: seq<Term>, cands: seq<int>): seq<int>
    requires |fwd| <= |rev|
  {
    if cands == [] then []
    else (if Seen(fwd, rev, cands[0]) then [] else [cands[0]]) + Missing(fwd, rev, cands[1..])
  }

  /** The missing periodicities are exactly the unseen candidates. */
  lemma {:induction false} MissingMembers(fwd: seq<Term>, rev: seq<Term>, cands: seq<int>)
    requires |fwd| <= |rev|
    ensures forall j :: j in Missing(fwd, rev, cands) <==> j in cands && !Seen(fwd, rev, j)
    ensures (forall j :: j in cands ==> Seen(fwd, rev, j)) ==> Missing(fwd, rev, cands) == []
    decreases |cands|
  {
    if cands != [] {
      MissingMembers(fwd, rev, cands[1..]);
      assert forall j :: j in cands <==> j == cands[0] || j in cands[1..];
    }
  }

  /** The placeholder terms for the periodicities js, in order. */
  function Placeholders(js: seq<int>): (ts: seq<Term>)
    ensures |ts| == |js|
  {
    seq(|js|, i requires 0 <= i < |js| => Placeholder(js[i]))
  }

  /** Each placeholder twice in a row: both appends landing on one list. */
  function Doubled(js: seq<int>): (ts: seq<Term>)
    ensures |ts| == 2 * |js|
  {
    if js == [] then [] else [Placeholder(js[0]), Placeholder(js[0])] + Doubled(js[1..])
  }

  /**
   t2 extends t1: same keys, every old list is a prefix of its new list,
   and every appended term is a zero placeholder of a candidate periodicity.
   */
  predicate Padded(t1: Table, t2: Table, cands: seq<int>) {
    && t2.Keys == t1.Keys
    && (forall k :: k in t1 ==> t1[k] <= t2[k])
    && (forall k, i :: k in t1 && |t1[k]| <= i < |t2[k]| ==>
          t2[k][i].phiK == 0.0 && t2[k][i].phase == 0.0 && t2[k][i].per in cands)
  }

  /** A key and its reversal grew by the same number of terms. */
  predicate Balanced(t1: Table, t2: Table)
    requires t2.Keys == t1.Keys
  {
    forall k :: k in t1 && Reverse(k) in t1 ==>
      |t2[k]| - |t1[k]| == |t2[Reverse(k)]| - |t1[Reverse(k)]|
  }

  lemma PaddedTrans(t1: Table, t2: Table, t3: Table, cands: seq<int>)
    requires Padded(t1, t2, cands) && Padded(t2, t3, cands)
    ensures Padded(t1, t3, cands)
  {
    forall k, i | k in t1 && |t1[k]| <= i < |t3[k]|
      ensures t3[k][i].phiK == 0.0 && t3[k][i].phase == 0.0 && t3[k][i].per in cands
    {
      if i < |t2[k]| {
        assert t3[k][i] == t2[k][i];
      }
    }
  }

  lemma PairedGrows(t1: Table, t2: Table, cands: seq<int>, ps: seq<Key>)
    requires Padded(t1, t2, cands) && Balanced(t1, t2) && AllPaired(t1, ps)
    ensures AllPaired(t2, ps)
  {
    forall i | 0 <= i < |ps|
      ensures Paired(t2, ps[i])
    {
      assert Paired(t1, ps[i]);
    }
  }

  /** Source lines 145-146 for one j: append a placeholder to p, then to its reversal. */
  function AppendBoth(t: Table, p: Key, j: int): (r: Table)
    requires p in t && Reverse(p) in t
    ensures r.Keys == t.Keys
  {
    var t1 := t[p := t[p] + [Placeholder(j)]];
    t1[Reverse(p) := t1[Reverse(p)] + [Placeholder(j)]]
  }

  /**
   Append both placeholders for each of js in turn. On a key that is not
   its own reversal both lists receive the placeholders in order; on a
   palindromic key the two appends land on the same list, so each
   placeholder arrives twice.
   */
  function AppendAll(t: Table, p: Key, js: seq<int>): (r: Table)
    requires p in t && Reverse(p) in t
    ensures r.Keys == t.Keys
    decreases |js|
  {
    if js == [] then t else AppendAll(AppendBoth(t, p, js[0]), p, js[1..])
  }

  /** Keys other than p and its reversal are left as they were. */
  lemma {:induction false} AppendAllOthers(t: Table, p: Key, js: seq<int>, k: Key)
    requires p in t && Reverse(p) in t && k in t && !Touches(p, k)
    ensures AppendAll(t, p, js)[k] == t[k]
    decreases |js|
  {
    if js != [] {
      AppendAllOthers(AppendBoth(t, p, js[0]), p, js[1..], k);
    }
  }

  /** On a key that is not its own reversal both lists receive js's placeholders in order. */
  lemma {:induction false} AppendAllTwins(t: Table, p: Key, js: seq<int>)
    requires p in t && Reverse(p) in t && !Palindromic(p)
    ensures AppendAll(t, p, js)[p] == t[p] + Placeholders(js)
    ensures AppendAll(t, p, js)[Reverse(p)] == t[Reverse(p)] + Placeholders(js)
    decreases |js|
  {
    if js != [] {
      var t1 := AppendBoth(t, p, js[0]);
      AppendAllTwins(t1, p, js[1..]);
      assert Placeholders(js) == [Placeholder(js[0])] + Placeholders(js[1..]);
      assert t1[p] + Placeholders(js[1..]) == t[p] + Placeholders(js);
      assert t1[Reverse(p)] + Placeholders(js[1..]) == t[Reverse(p)] + Placeholders(js);
    }
  }

  /** On a palindromic key the two appends land on one list: each placeholder arrives twice. */
  lemma {:induction false} AppendAllPalindrome(t: Table, p: Key, js: seq<int>)
    requires p in t && Palindromic(p)
    ensures AppendAll(t, p, js)[p] == t[p] + Doubled(js)
    decreases |js|
  {
    if js != [] {
      var t1 := AppendBoth(t, p, js[0]);
      AppendAllPalindrome(t1, p, js[1..]);
      assert t1[p] + Doubled(js[1..]) == t[p] + Doubled(js);
    }
  }

  /** The placeholders appended to p's list are zero terms of candidate periodicities. */
  lemma AppendedPlaceholders(t: Table, p: Key, js: seq<int>, cands: seq<int>)
    requires p in t && Reverse(p) in t
    requires forall j :: j in js ==> j in cands
    ensures var r := AppendAll(t, p, js);
            && t[p] <= r[p]
            && |r[p]| == |t[p]| + (if Palindromic(p) then 2 * |js| else |js|)
            && forall i :: |t[p]| <= i < |r[p]| ==>
                 r[p][i].phiK == 0.0 && r[p][i].phase == 0.0 && r[p][i].per in cands
  {
    var r: Table := AppendAll(t, p, js);
    if Palindromic(p) {
      AppendAllPalindrome(t, p, js);
      forall i | |t[p]| <= i < |r[p]|
        ensures r[p][i].phiK == 0.0 && r[p][i].phase == 0.0 && r[p][i].per in cands
      {
        DoubledIn(js, i - |t[p]|);
      }
    } else {
      AppendAllTwins(t, p, js);
      forall i | |t[p]| <= i < |r[p]|
        ensures r[p][i].phiK == 0.0 && r[p][i].phase == 0.0 && r[p][i].per in cands
      {
        assert r[p][i] == Placeholders(js)[i - |t[p]|];
      }
    }
  }

  /** The same for the reversed list. */
  lemma AppendedPlaceholdersReverse(t: Table, p: Key, js: seq<int>, cands: seq<int>)
    requires p in t && Reverse(p) in t && !Palindromic(p)
    requires forall j :: j in js ==> j in cands
    ensures var r := AppendAll(t, p, js);
            var q := Reverse(p);
            && t[q] <= r[q]
            && |r[q]| == |t[q]| + |js|
            && forall i :: |t[q]| <= i < |r[q]| ==>
                 r[q][i].phiK == 0.0 && r[q][i].phase == 0.0 && r[q][i].per in cands
  {
    var r: Table := AppendAll(t, p, js);
    var q := Reverse(p);
    AppendAllTwins(t, p, js);
    forall i | |t[q]| <= i < |r[q]|
      ensures r[q][i].phiK == 0.0 && r[q][i].phase == 0.0 && r[q][i].per in cands
    {
      assert r[q][i] == Placeholders(js)[i - |t[q]|];
    }
  }

  /** What appending js's placeholders for p does to the list of key k. */
  lemma AppendAllKey(t: Table, p: Key, js: seq<int>, cands: seq<int>, k: Key)
    requires p in t && Reverse(p) in t && k in t
    requires forall j :: j in js ==> j in cands
    ensures var r := AppendAll(t, p, js);
            && t[k] <= r[k]
            && |r[k]| == |t[k]| + (if !Touches(p, k) then 0 else if Palindromic(p) then 2 * |js| else |js|)
            && forall i :: |t[k]| <= i < |r[k]| ==>
                 r[k][i].phiK == 0.0 && r[k][i].phase == 0.0 && r[k][i].per in cands
  {
    if !Touches(p, k) {
      AppendAllOthers(t, p, js, k);
    } else if k == p {
      AppendedPlaceholders(t, p, js, cands);
    } else if Palindromic(p) {
      AppendedPlaceholders(t, p, js, cands);
    } else {
      AppendedPlaceholdersReverse(t, p, js, cands);
    }
  }

  lemma AppendAllPadded(t: Table, p: Key, js: seq<int>, cands: seq<int>)
    requires p in t && Reverse(p) in t
    requires forall j :: j in js ==> j in cands
    ensures Padded(t, AppendAll(t, p, js), cands) && Balanced(t, AppendAll(t, p, js))
  {
    var r: Table := AppendAll(t, p, js);
    var n := |js|;
    forall k | k in t
      ensures t[k] <= r[k]
      ensures |r[k]| == |t[k]| + (if !Touches(p, k) then 0 else if Palindromic(p) then 2 * n else n)
      ensures forall i :: |t[k]| <= i < |r[k]| ==>
                r[k][i].phiK == 0.0 && r[k][i].phase == 0.0 && r[k][i].per in cands
    {
      AppendAllKey(t, p, js, cands, k);
    }
  }

  lemma {:induction false} DoubledIn(js: seq<int>, i: nat)
    requires i < 2 * |js|
    ensures Doubled(js)[i] == Placeholder(js[i / 2])
  {
    if i >= 2 {
      DoubledIn(js[1..], i - 2);
    }
  }

  /** add_missing for the single selected torsion p. */
  function AddMissingOne(t: Table, p: Key, cands: seq<int>): (r: Table)
    requires Paired(t, p)
  {
    AppendAll(t, p, Missing(t[p], t[Reverse(p)], cands))
  }

  lemma AddMissingOnePadded(t: Table, p: Key, cands: seq<int>)
    requires Paired(t, p)
    ensures Padded(t, AddMissingOne(t, p, cands), cands) && Balanced(t, AddMissingOne(t, p, cands))
  {
    MissingMembers(t[p], t[Reverse(p)], cands);
    AppendAllPadded(t, p, Missing(t[p], t[Reverse(p)], cands), cands);
  }

  /** add_missing for every selected torsion, in order. */
  function AddMissingAll(t: Table, ps: seq<Key>, cands: seq<int>): Table
    requires AllPaired(t, ps)
    decreases |ps|
  {
    if ps == [] then t
    else
      var t1 := AddMissingOne(t, ps[0], cands);
      AddMissingOnePadded(t, ps[0], cands);
      PairedGrows(t, t1, cands, ps[1..]);
      AddMissingAll(t1, ps[1..], cands)
  }

  /**
   add_missing only appends: every list keeps its old terms as a prefix,
   every appended term is a zero-strength, zero-phase placeholder of a
   candidate periodicity, a key and its reversal grow together, and keys
   of torsions that are not selected are left alone.
   */
  lemma {:induction false} AddMissingOnlyAppends(t: Table, ps: seq<Key>, cands: seq<int>)
    requires AllPaired(t, ps)
    ensures Padded(t, AddMissingAll(t, ps, cands), cands)
    ensures Balanced(t, AddMissingAll(t, ps, cands))
    ensures forall k :: k in t && !TouchedBy(ps, k) ==> AddMissingAll(t, ps, cands)[k] == t[k]
    decreases |ps|
  {
    if ps != [] {
      var t1 := AddMissingOne(t, ps[0], cands);
      AddMissingOnePadded(t, ps[0], cands);
      PairedGrows(t, t1, cands, ps[1..]);
      AddMissingOnlyAppends(t1, ps[1..], cands);
      var r := AddMissingAll(t1, ps[1..], cands);
      PaddedTrans(t, t1, r, cands);
      forall k | k in t && !TouchedBy(ps, k)
        ensures r[k] == t[k]
      {
        assert !Touches(ps[0], k);
        AppendAllOthers(t, ps[0], Missing(t[ps[0]], t[Reverse(ps[0])], cands), k);
      }
    }
  }

  /** Every candidate periodicity of torsion p has been seen. */
  predicate Covered(t: Table, p: Key, cands: seq<int>)
    requires Paired(t, p)
  {
    forall j :: j in cands ==> Seen(t[p], t[Reverse(p)], j)
  }

  lemma SeenGrows(t1: Table, t2: Table, cands: seq<int>, p: Key, j: int)
    requires Padded(t1, t2, cands) && Paired(t1, p) && Paired(t2, p)
    requires Seen(t1[p], t1[Reverse(p)], j)
    ensures Seen(t2[p], t2[Reverse(p)], j)
  {
    var i :| 0 <= i < |t1[p]| && (t1[p][i].per == j || t1[Reverse(p)][i].per == j);
    assert t2[p][i] == t1[p][i] && t2[Reverse(p)][i] == t1[Reverse(p)][i];
  }

  /** Each periodicity appended to p is seen afterwards. */
  lemma AppendAllSees(t: Table, p: Key, js: seq<int>, idx: nat)
    requires Paired(t, p) && idx < |js|
    ensures Paired(AppendAll(t, p, js), p)
    ensures Seen(AppendAll(t, p, js)[p], AppendAll(t, p, js)[Reverse(p)], js[idx])
  {
    var r: Table := AppendAll(t, p, js);
    if Palindromic(p) {
      AppendAllPalindrome(t, p, js);
      DoubledIn(js, 2 * idx);
      var i := |t[p]| + 2 * idx;
      assert r[p][i].per == js[idx];
    } else {
      AppendAllTwins(t, p, js);
      var i := |t[p]| + idx;
      assert r[p][i].per == js[idx];
    }
  }

  /** After add_missing for p, every candidate of p has been seen. */
  lemma AddMissingOneCovers(t: Table, p: Key, cands: seq<int>)
    requires Paired(t, p)
    ensures Paired(AddMissingOne(t, p, cands), p)
    ensures Covered(AddMissingOne(t, p, cands), p, cands)
  {
    var js := Missing(t[p], t[Reverse(p)], cands);
    MissingMembers(t[p], t[Reverse(p)], cands);
    var r := AddMissingOne(t, p, cands);
    AddMissingOnePadded(t, p, cands);
    PairedGrows(t, r, cands, [p]);
    assert Paired(r, [p][0]);
    forall j | j in cands
      ensures Seen(r[p], r[Reverse(p)], j)
    {
      if Seen(t[p], t[Reverse(p)], j) {
        SeenGrows(t, r, cands, p, j);
      } else {
        var idx :| 0 <= idx < |js| && js[idx] == j;
        AppendAllSees(t, p, js, idx);
      }
    }
  }

  /**
   Coverage: after add_missing, for every selected torsion and every
   candidate periodicity, a term of that periodicity occurs on the forward
   list or on the reversed list at a forward index.
   */
  lemma {:induction false} AddMissingCovers(t: Table, ps: seq<Key>, cands: seq<int>)
    requires AllPaired(t, ps)
    ensures AllPaired(AddMissingAll(t, ps, cands), ps)
    ensures forall a :: 0 <= a < |ps| ==> Covered(AddMissingAll(t, ps, cands), ps[a], cands)
    decreases |ps|
  {
    if ps != [] {
      var p := ps[0];
      var t1 := AddMissingOne(t, p, cands);
      AddMissingOnePadded(t, p, cands);
      PairedGrows(t, t1, cands, ps[1..]);
      var r := AddMissingAll(t1, ps[1..], cands);
      assert AddMissingAll(t, ps, cands) == r;
      AddMissingOneCovers(t, p, cands);
      AddMissingCovers(t1, ps[1..], cands);
      AddMissingOnlyAppends(t1, ps[1..], cands);
      CoveredStays(t1, r, cands, p);
      forall a | 0 <= a < |ps|
        ensures Paired(r, ps[a]) && Covered(r, ps[a], cands)
      {
        if a > 0 {
          assert ps[a] == ps[1..][a - 1];
        }
      }
    }
  }

  /** Padding keeps a torsion paired and everything it has seen. */
  lemma CoveredStays(t1: Table, t2: Table, cands: seq<int>, p: Key)
    requires Padded(t1, t2, cands) && Balanced(t1, t2) && Paired(t1, p) && Covered(t1, p, cands)
    ensures Paired(t2, p) && Covered(t2, p, cands)
  {
    PairedGrows(t1, t2, cands, [p]);
    assert Paired(t2, [p][0]);
    forall j | j in cands
      ensures Seen(t2[p], t2[Reverse(p)], j)
    {
      SeenGrows(t1, t2, cands, p, j);
    }
  }

  /** With every candidate already seen, add_missing appends nothing. */
  lemma {:induction false} AddMissingNoop(t: Table, ps: seq<Key>, cands: seq<int>)
    requires AllPaired(t, ps)
    requires forall a :: 0 <= a < |ps| ==> Covered(t, ps[a], cands)
    ensures AddMissingAll(t, ps, cands) == t
    decreases |ps|
  {
    if ps != [] {
      assert Covered(t, ps[0], cands);
      MissingMembers(t[ps[0]], t[Reverse(ps[0])], cands);
      assert AddMissingOne(t, ps[0], cands) == t;
      assert AllPaired(t, ps[1..]);
      AddMissingNoop(t, ps[1..], cands);
    }
  }

  /** add_missing is idempotent: a second call appends nothing. */
  lemma AddMissingIdempotent(t: Table, ps: seq<Key>, cands: seq<int>)
    requires AllPaired(t, ps)
    ensures AllPaired(AddMissingAll(t, ps, cands), ps)
    ensures AddMissingAll(AddMissingAll(t, ps, cands), ps, cands) == AddMissingAll(t, ps, cands)
  {
    AddMissingCovers(t, ps, cands);
    AddMissingNoop(AddMissingAll(t, ps, cands), ps, cands);
  }

  /**
   The two orientations of torsion p carry the same periodicity at every
   forward index, as the parameter set keeps them.
   */
  predicate SamePers(t: Table, p: Key)
    requires Paired(t, p)
  {
    forall i :: 0 <= i < |t[p]| ==> t[p][i].per == t[Reverse(p)][i].per
  }

  /** The two orientations of torsion p are lists of the same periodicities, term by term. */
  predicate InStep(t: Table, p: Key) {
    Paired(t, p) && |t[p]| == |t[Reverse(p)]| && SamePers(t, p)
  }

  /** Every candidate periodicity occurs on torsion p's own list and on its reversal's. */
  predicate OwnCovered(t: Table, p: Key, cands: seq<int>) {
    p in t && Reverse(p) in t && forall j :: j in cands ==> HasPer(t[p], j) && HasPer(t[Reverse(p)], j)
  }

  /**
   When the orientations agree on periodicities, padding one torsion puts
   candidate j on its own list and on its reversal's, the lists that
   update_param walks by index.
   */
  lemma AddMissingOneHas(t: Table, p: Key, cands: seq<int>, j: int)
    requires Paired(t, p) && SamePers(t, p) && j in cands
    ensures HasPer(AddMissingOne(t, p, cands)[p], j) && HasPer(AddMissingOne(t, p, cands)[Reverse(p)], j)
  {
    MissingMembers(t[p], t[Reverse(p)], cands);
    if Seen(t[p], t[Reverse(p)], j) {
      SeenStays(t, p, cands, j);
    } else {
      MissingAppended(t, p, cands, j);
    }
  }

  /** A periodicity seen at a forward index stays on both lists, which only grow. */
  lemma SeenStays(t: Table, p: Key, cands: seq<int>, j: int)
    requires Paired(t, p) && SamePers(t, p) && Seen(t[p], t[Reverse(p)], j)
    ensures HasPer(AddMissingOne(t, p, cands)[p], j) && HasPer(AddMissingOne(t, p, cands)[Reverse(p)], j)
  {
    var q := Reverse(p);
    var js := Missing(t[p], t[q], cands);
    var r: Table := AddMissingOne(t, p, cands);
    MissingMembers(t[p], t[q], cands);
    AppendAllKey(t, p, js, cands, p);
    AppendAllKey(t, p, js, cands, q);
    var i :| 0 <= i < |t[p]| && (t[p][i].per == j || t[q][i].per == j);
    assert r[p][i] == t[p][i] && r[q][i] == t[q][i];
  }

  /** A missing candidate arrives as a placeholder on both lists. */
  lemma MissingAppended(t: Table, p: Key, cands: seq<int>, j: int)
    requires Paired(t, p) && j in Missing(t[p], t[Reverse(p)], cands)
    ensures HasPer(AddMissingOne(t, p, cands)[p], j) && HasPer(AddMissingOne(t, p, cands)[Reverse(p)], j)
  {
    var js := Missing(t[p], t[Reverse(p)], cands);
    var idx :| 0 <= idx < |js| && js[idx] == j;
    HasPlaceholder(t[p], js, idx);
    HasPlaceholder(t[Reverse(p)], js, idx);
    if Palindromic(p) {
      AppendAllPalindrome(t, p, js);
    } else {
      AppendAllTwins(t, p, js);
    }
  }

  /** A list extended by js's placeholders, once or twice each, has every periodicity of js. */
  lemma HasPlaceholder(base: seq<Term>, js: seq<int>, idx: nat)
    requires idx < |js|
    ensures HasPer(base + Placeholders(js), js[idx]) && HasPer(base + Doubled(js), js[idx])
  {
    var once := base + Placeholders(js);
    var k := |base| + idx;
    assert once[k] == Placeholders(js)[idx];
    assert once[k].per == js[idx];
    HasDoubled(base, js, idx);
  }

  lemma HasDoubled(base: seq<Term>, js: seq<int>, idx: nat)
    requires idx < |js|
    ensures HasPer(base + Doubled(js), js[idx])
  {
    var twice := base + Doubled(js);
    var k := |base| + 2 * idx;
    var d := Doubled(js);
    assert (2 * idx) / 2 == idx;
    DoubledIn(js, 2 * idx);
    assert d[2 * idx].per == js[idx];
    assert twice[k] == d[2 * idx];
  }

  /** Padding one torsion keeps its two orientations in step: both receive the same placeholders. */
  lemma AddMissingOneInStep(t: Table, p: Key, cands: seq<int>)
    requires InStep(t, p)
    ensures InStep(AddMissingOne(t, p, cands), p)
    ensures OwnCovered(AddMissingOne(t, p, cands), p, cands)
  {
    var q := Reverse(p);
    var js := Missing(t[p], t[q], cands);
    var r: Table := AddMissingOne(t, p, cands);
    if !Palindromic(p) {
      AppendAllTwins(t, p, js);
      forall i | 0 <= i < |r[p]|
        ensures r[p][i].per == r[q][i].per
      {
        if i >= |t[p]| {
          assert r[p][i] == Placeholders(js)[i - |t[p]|] == r[q][i];
        }
      }
    }
    forall j | j in cands
      ensures HasPer(r[p], j) && HasPer(r[q], j)
    {
      AddMissingOneHas(t, p, cands, j);
    }
  }

  /**
   Padding the first selected torsion leaves the lists of every later
   selected torsion alone, and no later torsion touches the first one's keys.
   */
  lemma AddMissingOneLeaves(t: Table, ps: seq<Key>, cands: seq<int>)
    requires AllPaired(t, ps) && Distinct(ps) && ps != []
    ensures forall b :: 1 <= b < |ps| ==>
              && AddMissingOne(t, ps[0], cands)[ps[b]] == t[ps[b]]
              && AddMissingOne(t, ps[0], cands)[Reverse(ps[b])] == t[Reverse(ps[b])]
    ensures !TouchedBy(ps[1..], ps[0]) && !TouchedBy(ps[1..], Reverse(ps[0]))
  {
    var p := ps[0];
    var js := Missing(t[p], t[Reverse(p)], cands);
    forall b | 1 <= b < |ps|
      ensures AddMissingOne(t, p, cands)[ps[b]] == t[ps[b]]
      ensures AddMissingOne(t, p, cands)[Reverse(ps[b])] == t[Reverse(ps[b])]
      ensures !Touches(ps[b], p) && !Touches(ps[b], Reverse(p))
    {
      assert Paired(t, ps[b]);
      DistinctApart(ps, b, 0, ps[b]);
      DistinctApart(ps, b, 0, Reverse(ps[b]));
      DistinctApart(ps, 0, b, p);
      DistinctApart(ps, 0, b, Reverse(p));
      AppendAllOthers(t, p, js, ps[b]);
      AppendAllOthers(t, p, js, Reverse(ps[b]));
    }
    forall b | 0 <= b < |ps[1..]|
      ensures !Touches(ps[1..][b], p) && !Touches(ps[1..][b], Reverse(p))
    {
      assert ps[1..][b] == ps[b + 1];
    }
  }

  /**
   For a selection without repeats whose torsions have their two
   orientations in step, add_missing keeps them in step and leaves every
   candidate periodicity on each selected torsion's own list and on its
   reversal's. This is the coverage the sampled variables rely on, since
   update_param reads only the torsion's own list.
   */
  lemma {:induction false} AddMissingAllInStep(t: Table, ps: seq<Key>, cands: seq<int>)
    requires AllPaired(t, ps) && Distinct(ps) && forall a :: 0 <= a < |ps| ==> InStep(t, ps[a])
    ensures forall a :: 0 <= a < |ps| ==> InStep(AddMissingAll(t, ps, cands), ps[a])
    ensures forall a :: 0 <= a < |ps| ==> OwnCovered(AddMissingAll(t, ps, cands), ps[a], cands)
    decreases |ps|
  {
    if ps != [] {
      var p := ps[0];
      var t1 := AddMissingOne(t, p, cands);
      AddMissingOnePadded(t, p, cands);
      PairedGrows(t, t1, cands, ps[1..]);
      AddMissingOneInStep(t, p, cands);
      AddMissingOneLeaves(t, ps, cands);
      forall b | 0 <= b < |ps[1..]|
        ensures InStep(t1, ps[1..][b])
      {
        assert ps[1..][b] == ps[b + 1];
        assert InStep(t, ps[b + 1]);
      }
      DistinctTail(ps);
      AddMissingAllInStep(t1, ps[1..], cands);
      AddMissingOnlyAppends(t1, ps[1..], cands);
      var r := AddMissingAll(t1, ps[1..], cands);
      assert AddMissingAll(t, ps, cands) == r;
      assert r[p] == t1[p] && r[Reverse(p)] == t1[Reverse(p)];
      forall a | 0 <= a < |ps|
        ensures InStep(r, ps[a]) && OwnCovered(r, ps[a], cands)
      {
        if a > 0 {
          assert ps[a] == ps[1..][a - 1];
        }
      }
    }
  }

  /** One step of the candidate loop: the candidate at c is appended exactly when unseen. */
  lemma AppendStep(t: Table, p: Key, fwd: seq<Term>, rev: seq<Term>, cands: seq<int>, c: nat)
    requires p in t && Reverse(p) in t && |fwd| <= |rev| && c < |cands|
    ensures Seen(fwd, rev, cands[c]) ==>
              AppendAll(t, p, Missing(fwd, rev, cands[c..])) == AppendAll(t, p, Missing(fwd, rev, cands[c + 1..]))
    ensures !Seen(fwd, rev, cands[c]) ==>
              AppendAll(t, p, Missing(fwd, rev, cands[c..]))
              == AppendAll(AppendBoth(t, p, cands[c]), p, Missing(fwd, rev, cands[c + 1..]))
  {
    assert cands[c..][0] == cands[c] && cands[c..][1..] == cands[c + 1..];
    var js := Missing(fwd, rev, cands[c..]);
    var rest := Missing(fwd, rev, cands[c + 1..]);
    if Seen(fwd, rev, cands[c]) {
      assert js == rest;
    } else {
      assert js == [cands[c]] + rest;
      assert js[0] == cands[c] && js[1..] == rest;
    }
  }

  /**
   The body of add_missing for one selected torsion p (torsionfit/model.py:138-146):
   collect the periodicities of both orientations, then append a placeholder
   pair for every candidate not among them.
   */
  method AddMissingTorsion(param: ParameterSet, p: Key, multiplicities: seq<int>)
    requires Paired(param.dihedralTypes, p)
    modifies param
    ensures param.dihedralTypes == AddMissingOne(old(param.dihedralTypes), p, multiplicities)
  {
    var reverse := Reverse(p);
    ghost var t1 := param.dihedralTypes;
    ghost var fwd := t1[p];
    ghost var rev := t1[reverse];
    var per: seq<int> := [];
    for i := 0 to |param.dihedralTypes[p]|
      invariant param.dihedralTypes == t1
      invariant forall j :: j in per <==> SeenUpTo(fwd, rev, i, j)
    {
      per := per + [param.dihedralTypes[p][i].per, param.dihedralTypes[reverse][i].per];
      forall j | true
        ensures j in per <==> SeenUpTo(fwd, rev, i + 1, j)
      {
        SeenUpToStep(fwd, rev, i, j);
      }
    }
    for c := 0 to |multiplicities|
      invariant p in param.dihedralTypes && reverse in param.dihedralTypes
      invariant AppendAll(param.dihedralTypes, p, Missing(fwd, rev, multiplicities[c..]))
                == AddMissingOne(t1, p, multiplicities)
    {
      var j := multiplicities[c];
      AppendStep(param.dihedralTypes, p, fwd, rev, multiplicities, c);
      if j !in per {
        ghost var before := param.dihedralTypes;
        param.dihedralTypes := param.dihedralTypes[p := param.dihedralTypes[p] + [Placeholder(j)]];
        param.dihedralTypes := param.dihedralTypes[reverse := param.dihedralTypes[reverse] + [Placeholder(j)]];
        assert param.dihedralTypes == AppendBoth(before, p, j);
      }
    }
  }

  /** One step of the fold over the selection, with the pairing it needs afterwards. */
  lemma AddMissingStep(t: Table, ps: seq<Key>, a: nat, cands: seq<int>)
    requires a < |ps| && AllPaired(t, ps[a..])
    ensures Paired(t, ps[a])
    ensures AllPaired(AddMissingOne(t, ps[a], cands), ps[a + 1..])
    ensures AddMissingAll(t, ps[a..], cands) == AddMissingAll(AddMissingOne(t, ps[a], cands), ps[a + 1..], cands)
  {
    assert ps[a..][0] == ps[a] && ps[a..][1..] == ps[a + 1..];
    AddMissingOnePadded(t, ps[a], cands);
    PairedGrows(t, AddMissingOne(t, ps[a], cands), cands, ps[a + 1..]);
  }

  /**
   add_missing: every selected torsion in order. The store after the call is
   AddMissingAll of the store before it, for the candidates 1, 2, 3, 4, 6
   (and 5 when sampleN5 is set).
   */
  method AddMissing(param: ParameterSet, parametersToOptimize: seq<Key>, sampleN5: bool)
    requires AllPaired(param.dihedralTypes, parametersToOptimize)
    modifies param
    ensures param.dihedralTypes
              == AddMissingAll(old(param.dihedralTypes), parametersToOptimize, Candidates(sampleN5))
  {
    var multiplicities := [1, 2, 3, 4, 6];
    if sampleN5 {
      multiplicities := [1, 2, 3, 4, 5, 6];
    }
    assert multiplicities == Candidates(sampleN5);
    ghost var t0 := param.dihedralTypes;
    var ps := parametersToOptimize;
    assert ps[0..] == ps;
    for a := 0 to |ps|
      invariant AllPaired(param.dihedralTypes, ps[a..])
      invariant AddMissingAll(param.dihedralTypes, ps[a..], multiplicities)
                == AddMissingAll(t0, ps, multiplicities)
    {
      AddMissingStep(param.dihedralTypes, ps, a, multiplicities);
      AddMissingTorsion(param, ps[a], multiplicities);
    }
    assert ps[|ps|..] == [];
  }
}
