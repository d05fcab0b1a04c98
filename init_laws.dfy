/**
 What the constructors' variable creation guarantees: the initial bitstring
 decodes to the candidate periodicities present, each force constant starts
 at the first matching term's value, and each phase variable starts at the
 indicator of that term (standard) or at the angle of the last term
 (continuous phase, whose loop does not stop at the first match).
 */
module InitLaws {
  import opened Store
  import opened Bitstring
  import opened Update
  import opened Init

  /** The first term of periodicity m sits at index j. */
  predicate FirstWithPer(ts: seq<Term>, m: int, j: nat) {
    j < |ts| && ts[j].per == m && forall i :: 0 <= i < j ==> ts[i].per != m
  }

  lemma {:induction false} FirstPhiKAt(ts: seq<Term>, m: int, j: nat)
    requires FirstWithPer(ts, m, j)
    ensures FirstPhiK(ts, m) == ts[j].phiK
    ensures FirstPhase(ts, m) == ts[j].phase
    decreases j
  {
    if j > 0 {
      assert ts[0].per != m;
      FirstPhiKAt(ts[1..], m, j - 1);
    }
  }

  lemma {:induction false} FirstPhiKAbsent(ts: seq<Term>, m: int)
    requires !HasPer(ts, m)
    ensures FirstPhiK(ts, m) == 0.0 && FirstPhase(ts, m) == 0.0
    decreases |ts|
  {
    if ts != [] {
      assert ts[0].per != m;
      assert !HasPer(ts[1..], m) by {
        forall i | 0 <= i < |ts[1..]|
          ensures ts[1..][i].per != m
        {
          assert ts[1..][i] == ts[i + 1];
        }
      }
      FirstPhiKAbsent(ts[1..], m);
    }
  }

  /**
   The initial force constant is that of the first term of periodicity m,
   and 0 when no term has periodicity m.
   */
  lemma InitialK(ts: seq<Term>, m: int)
    ensures HasPer(ts, m) ==> exists j: nat :: FirstWithPer(ts, m, j) && FirstPhiK(ts, m) == ts[j].phiK
    ensures !HasPer(ts, m) ==> FirstPhiK(ts, m) == 0.0
  {
    if HasPer(ts, m) {
      var j := FirstIndex(ts, m);
      FirstPhiKAt(ts, m, j);
    } else {
      FirstPhiKAbsent(ts, m);
    }
  }

  /** The index of the first term of periodicity m. */
  lemma {:induction false} FirstIndexExists(ts: seq<Term>, m: int, i: nat)
    requires i < |ts| && ts[i].per == m
    ensures exists j: nat :: FirstWithPer(ts, m, j)
    decreases i
  {
    if exists i' :: 0 <= i' < i && ts[i'].per == m {
      var i' :| 0 <= i' < i && ts[i'].per == m;
      FirstIndexExists(ts, m, i');
    } else {
      assert FirstWithPer(ts, m, i);
    }
  }

  ghost function FirstIndex(ts: seq<Term>, m: int): (j: nat)
    requires HasPer(ts, m)
    ensures FirstWithPer(ts, m, j)
  {
    var i :| 0 <= i < |ts| && ts[i].per == m;
    FirstIndexExists(ts, m, i);
    var j: nat :| FirstWithPer(ts, m, j);
    j
  }

  /** The carried scan variable of the standard variant is unbound, 0 or 1. */
  predicate IndicatorValue(c: Option<real>) {
    c.None? || c == Some(0.0) || c == Some(1.0)
  }

  /** The indicator scan yields 0, 1 or the carried value, and never unbinds a bound one. */
  lemma {:induction false} IndicatorScanValues(ts: seq<Term>, m: int, cur: Option<real>)
    ensures var r := IndicatorScan(ts, m, cur);
            (r == cur || r == Some(0.0) || r == Some(1.0)) && (cur.Some? ==> r.Some?)
    decreases |ts|
  {
    if ts != [] {
      IndicatorScanValues(ts[1..], m, cur);
      IndicatorScanValues(ts[1..], m, Some(0.0));
    }
  }

  /**
   The indicator starts at 1 when the first term of periodicity m has phase
   180 and at 0 when it has phase 0, whatever was carried over.
   */
  lemma {:induction false} IndicatorScanFirst(ts: seq<Term>, m: int, cur: Option<real>, j: nat)
    requires FirstWithPer(ts, m, j) && (ts[j].phase == 0.0 || ts[j].phase == 180.0)
    ensures IndicatorScan(ts, m, cur) == Some(if ts[j].phase == 180.0 then 1.0 else 0.0)
    decreases j
  {
    if j > 0 {
      assert ts[0].per != m;
      IndicatorScanFirst(ts[1..], m, Some(0.0), j - 1);
    }
  }

  /** The indicator starts at 0 when no term has periodicity m and some term exists. */
  lemma {:induction false} IndicatorScanAbsent(ts: seq<Term>, m: int, cur: Option<real>)
    requires ts != [] && !HasPer(ts, m)
    ensures IndicatorScan(ts, m, cur) == Some(0.0)
    decreases |ts|
  {
    assert ts[0].per != m;
    if |ts| > 1 {
      assert !HasPer(ts[1..], m) by {
        forall i | 0 <= i < |ts[1..]|
          ensures ts[1..][i].per != m
        {
          assert ts[1..][i] == ts[i + 1];
        }
      }
      IndicatorScanAbsent(ts[1..], m, Some(0.0));
    }
  }

  /** Once the scan decides on its own, the carried value no longer matters. */
  lemma {:induction false} IndicatorScanDecided(ts: seq<Term>, m: int, cur: Option<real>)
    requires IndicatorScan(ts, m, None).Some?
    ensures IndicatorScan(ts, m, cur) == IndicatorScan(ts, m, None)
    decreases |ts|
  {
    if ts != [] && ts[0].per == m && ts[0].phase != 0.0 && ts[0].phase != 180.0 {
      IndicatorScanDecided(ts[1..], m, cur);
    }
  }

  /**
   The continuous-phase scan (stopping at the first match) starts the phase
   at the first term of periodicity m, else at 0, for any non-empty list.
   */
  lemma {:induction false} ContinuousScanFirst(ts: seq<Term>, m: int, cur: Option<real>)
    requires ts != []
    ensures ContinuousScan(ts, m, cur) == Some(FirstPhase(ts, m))
    decreases |ts|
  {
    if ts[0].per != m && |ts| > 1 {
      ContinuousScanFirst(ts[1..], m, Some(0.0));
    }
  }

  /** The scan as written returns what the last term says. */
  lemma {:induction false} ContinuousScanAsWrittenLast(ts: seq<Term>, m: int, cur: Option<real>)
    requires ts != []
    ensures ContinuousScanAsWritten(ts, m, cur)
            == Some(if ts[|ts| - 1].per == m then ts[|ts| - 1].phase else 0.0)
    decreases |ts|
  {
    if |ts| > 1 {
      ContinuousScanAsWrittenLast(ts[1..], m, Some(if ts[0].per == m then ts[0].phase else 0.0));
    }
  }

  /**
   The scan as written loses the phase of a term of periodicity m that is
   followed by a term of another periodicity: the force constant starts at
   that term's value while the phase starts at 0 instead of 180.
   */
  lemma ContinuousScanAsWrittenDiffers()
    ensures var ts := [Term(1.5, 2, 180.0), Term(0.8, 3, 0.0)];
            && FirstPhiK(ts, 2) == 1.5
            && ContinuousScanAsWritten(ts, 2, None) == Some(0.0)
            && ContinuousScan(ts, 2, None) == Some(180.0)
  {
    var ts := [Term(1.5, 2, 180.0), Term(0.8, 3, 0.0)];
    ContinuousScanAsWrittenLast(ts, 2, None);
    ContinuousScanFirst(ts, 2, None);
    assert ts[1..] == [Term(0.8, 3, 0.0)];
  }

  /** Entry key is present in m1 exactly when in m2, with the same value. */
  predicate KeepsEntry(m1: map<(Key, int), real>, m2: map<(Key, int), real>, key: (Key, int)) {
    (key in m1 <==> key in m2) && (key in m1 ==> m2[key] == m1[key])
  }

  /** Creating torsion p's variables of periodicities ms touches no other entry. */
  lemma {:induction false} InitPersFrame(st: InitState, v: Variant, ts: seq<Term>, p: Key, ms: seq<int>, q: Key, m: int)
    requires p in st.lat.bitstring && AllPositive(ms)
    requires q != p || m !in ms
    requires InitPers(st, v, ts, p, ms).Some?
    ensures var r := InitPers(st, v, ts, p, ms).value;
            && KeepsEntry(st.lat.k, r.lat.k, (q, m))
            && KeepsEntry(st.lat.phase, r.lat.phase, (q, m))
            && (q != p ==> (q in r.lat.bitstring <==> q in st.lat.bitstring))
            && (q != p && q in st.lat.bitstring ==> r.lat.bitstring[q] == st.lat.bitstring[q])
    decreases |ms|
  {
    if ms != [] {
      var r1 := InitPer(st, v, ts, p, ms[0]).value;
      assert m !in ms[1..] || q != p;
      InitPersFrame(r1, v, ts, p, ms[1..], q, m);
    }
  }

  /** Torsions outside the selection keep all their entries. */
  lemma {:induction false} InitAllFrame(st: InitState, v: Variant, t: Table, ps: seq<Key>, q: Key, m: int)
    requires forall a :: 0 <= a < |ps| ==> ps[a] in t && ps[a] != q
    requires InitAll(st, v, t, ps).Some?
    ensures var r := InitAll(st, v, t, ps).value;
            && KeepsEntry(st.lat.k, r.lat.k, (q, m))
            && KeepsEntry(st.lat.phase, r.lat.phase, (q, m))
            && (q in r.lat.bitstring <==> q in st.lat.bitstring)
            && (q in st.lat.bitstring ==> r.lat.bitstring[q] == st.lat.bitstring[q])
    decreases |ps|
  {
    if ps != [] {
      var s0 := StartBits(st, ps[0]);
      var r1 := InitPers(s0, v, t[ps[0]], ps[0], InitMultiplicities(v)).value;
      InitPersFrame(s0, v, t[ps[0]], ps[0], InitMultiplicities(v), q, m);
      InitAllFrame(r1, v, t, ps[1..], q, m);
    }
  }

  /** The standard variant's carried indicator stays 0, 1 or unbound. */
  predicate CarryOk(v: Variant, st: InitState) {
    v.Standard? ==> IndicatorValue(st.carried)
  }

  /**
   What the constructor has recorded for torsion p with terms ts and
   periodicities ms: the bitstring grew from base by the encoding of ts, each
   force constant comes from the first term of its periodicity, the standard
   phase is a 0/1 indicator (the one the scan decides by itself, when it
   does), and the continuous phase is the last term's phase when that term
   has the periodicity, else 0.
   */
  predicate Records(r: InitState, v: Variant, ts: seq<Term>, p: Key, ms: seq<int>, base: int)
    requires AllPositive(ms)
  {
    && p in r.lat.bitstring
    && r.lat.bitstring[p] == base + Encode(ts, ms)
    && (forall m :: m in ms ==> (p, m) in r.lat.k && r.lat.k[(p, m)] == FirstPhiK(ts, m))
    && (v.Standard? ==> forall m :: m in ms ==>
          && (p, m) in r.lat.phase
          && (r.lat.phase[(p, m)] == 0.0 || r.lat.phase[(p, m)] == 1.0)
          && (IndicatorScan(ts, m, None).Some? ==> r.lat.phase[(p, m)] == IndicatorScan(ts, m, None).value))
    && (v.ContinuousPhase? ==> forall m :: m in ms ==>
          && (p, m) in r.lat.phase
          && (ts != [] ==> r.lat.phase[(p, m)] == if ts[|ts| - 1].per == m then ts[|ts| - 1].phase else 0.0))
  }

  /** Records survive any later step that keeps p's entries. */
  lemma RecordsKept(r1: InitState, r: InitState, v: Variant, ts: seq<Term>, p: Key, ms: seq<int>, base: int)
    requires AllPositive(ms) && Records(r1, v, ts, p, ms, base)
    requires forall m :: m in ms ==> KeepsEntry(r1.lat.k, r.lat.k, (p, m)) && KeepsEntry(r1.lat.phase, r.lat.phase, (p, m))
    requires p in r.lat.bitstring && r.lat.bitstring[p] == r1.lat.bitstring[p]
    ensures Records(r, v, ts, p, ms, base)
  {
  }

  /** What creating torsion p's variables of periodicities ms records for p. */
  lemma {:induction false} InitPersRecords(st: InitState, v: Variant, ts: seq<Term>, p: Key, ms: seq<int>)
    requires p in st.lat.bitstring && AllPositive(ms) && CarryOk(v, st)
    requires forall i, j :: 0 <= i < j < |ms| ==> ms[i] < ms[j]
    requires InitPers(st, v, ts, p, ms).Some?
    ensures var r := InitPers(st, v, ts, p, ms).value;
            CarryOk(v, r) && Records(r, v, ts, p, ms, st.lat.bitstring[p])
    decreases |ms|
  {
    if ms != [] {
      var m0 := ms[0];
      var r1 := InitPer(st, v, ts, p, m0).value;
      var r := InitPers(st, v, ts, p, ms).value;
      assert r == InitPers(r1, v, ts, p, ms[1..]).value;
      if v.Standard? {
        IndicatorScanValues(ts, m0, st.carried);
        if IndicatorScan(ts, m0, None).Some? {
          IndicatorScanDecided(ts, m0, st.carried);
        }
      }
      if v.ContinuousPhase? && ts != [] {
        ContinuousScanAsWrittenLast(ts, m0, st.carried);
      }
      assert AllPositive(ms[1..]) by {
        forall i | 0 <= i < |ms[1..]|
          ensures ms[1..][i] >= 1
        {
          assert ms[1..][i] == ms[i + 1];
        }
      }
      InitPersRecords(r1, v, ts, p, ms[1..]);
      assert m0 !in ms[1..];
      InitPersFrame(r1, v, ts, p, ms[1..], p, m0);
      assert forall m :: m in ms ==> m == m0 || m in ms[1..];
    }
  }

  /** The carried indicator stays 0, 1 or unbound across the whole constructor loop. */
  lemma {:induction false} InitAllCarry(st: InitState, v: Variant, t: Table, ps: seq<Key>)
    requires forall a :: 0 <= a < |ps| ==> ps[a] in t
    requires CarryOk(v, st) && InitAll(st, v, t, ps).Some?
    ensures CarryOk(v, InitAll(st, v, t, ps).value)
    decreases |ps|
  {
    if ps != [] {
      var ms := InitMultiplicities(v);
      var s0 := StartBits(st, ps[0]);
      InitPersRecords(s0, v, t[ps[0]], ps[0], ms);
      InitAllCarry(InitPers(s0, v, t[ps[0]], ps[0], ms).value, v, t, ps[1..]);
    }
  }

  /**
   The loop over the selection ps reaches torsion ps[a] knowing nothing of
   it yet, no other selected torsion has the same key, and the loop succeeds.
   */
  predicate ReachesFresh(st: InitState, v: Variant, t: Table, ps: seq<Key>, a: nat) {
    && (forall b :: 0 <= b < |ps| ==> ps[b] in t)
    && a < |ps|
    && (forall b :: 0 <= b < |ps| && b != a ==> ps[b] != ps[a])
    && ps[a] !in st.lat.bitstring
    && CarryOk(v, st)
    && InitAll(st, v, t, ps).Some?
  }

  /**
   For a selection without repeats, what the constructor loop records for
   the selected torsion ps[a], starting from a state that knows nothing of it.
   */
  lemma {:induction false} InitAllRecords(st: InitState, v: Variant, t: Table, ps: seq<Key>, a: nat)
    requires ReachesFresh(st, v, t, ps, a)
    ensures Records(InitAll(st, v, t, ps).value, v, t[ps[a]], ps[a], InitMultiplicities(v), 0)
    decreases |ps|
  {
    if a == 0 {
      InitAllRecordsHead(st, v, t, ps);
    } else {
      var r1 := InitAllHead(st, v, t, ps, a);
      InitAllRecords(r1, v, t, ps[1..], a - 1);
    }
  }

  /**
   The state after the first selected torsion: the loop continues from it
   and still reaches ps[a] fresh.
   */
  lemma InitAllHead(st: InitState, v: Variant, t: Table, ps: seq<Key>, a: nat) returns (r1: InitState)
    requires ReachesFresh(st, v, t, ps, a) && a > 0
    ensures InitAll(st, v, t, ps) == InitAll(r1, v, t, ps[1..])
    ensures ReachesFresh(r1, v, t, ps[1..], a - 1) && ps[1..][a - 1] == ps[a]
  {
    var ms := InitMultiplicities(v);
    var s0 := StartBits(st, ps[0]);
    r1 := InitPers(s0, v, t[ps[0]], ps[0], ms).value;
    assert ps[0] != ps[a];
    InitPersRecords(s0, v, t[ps[0]], ps[0], ms);
    InitPersFrame(s0, v, t[ps[0]], ps[0], ms, ps[a], 1);
    forall b | 0 <= b < |ps[1..]|
      ensures ps[1..][b] == ps[b + 1]
    {
    }
  }

  /** The first selected torsion's records survive the rest of the loop. */
  lemma InitAllRecordsHead(st: InitState, v: Variant, t: Table, ps: seq<Key>)
    requires forall b :: 0 <= b < |ps| ==> ps[b] in t
    requires ps != [] && (forall b :: 0 < b < |ps| ==> ps[b] != ps[0])
    requires ps[0] !in st.lat.bitstring && CarryOk(v, st)
    requires InitAll(st, v, t, ps).Some?
    ensures Records(InitAll(st, v, t, ps).value, v, t[ps[0]], ps[0], InitMultiplicities(v), 0)
  {
    var ms := InitMultiplicities(v);
    var p := ps[0];
    var s0 := StartBits(st, p);
    var r1 := InitPers(s0, v, t[p], p, ms).value;
    var r := InitAll(st, v, t, ps).value;
    assert r == InitAll(r1, v, t, ps[1..]).value;
    InitPersRecords(s0, v, t[p], p, ms);
    forall b | 0 <= b < |ps[1..]|
      ensures ps[1..][b] in t && ps[1..][b] != p
    {
      assert ps[1..][b] == ps[b + 1];
    }
    forall m | m in ms
      ensures KeepsEntry(r1.lat.k, r.lat.k, (p, m)) && KeepsEntry(r1.lat.phase, r.lat.phase, (p, m))
    {
      InitAllFrame(r1, v, t, ps[1..], p, m);
    }
    InitAllFrame(r1, v, t, ps[1..], p, 1);
    RecordsKept(r1, r, v, t[p], p, ms, 0);
  }

  /**
   The initial bitstring of a selected torsion lies in 0..63 and has bit
   (m-1) set exactly for the candidate periodicities m present in its terms.
   */
  lemma InitialBitstring(v: Variant, t: Table, ps: seq<Key>, a: nat)
    requires forall b :: 0 <= b < |ps| ==> ps[b] in t
    requires Distinct(ps) && a < |ps|
    requires InitAll(EmptyState, v, t, ps).Some?
    ensures var bits := InitAll(EmptyState, v, t, ps).value.lat.bitstring;
            && ps[a] in bits
            && 0 <= bits[ps[a]] < 64
            && forall m: nat :: m >= 1 ==>
                 (HasBit(bits[ps[a]], m) <==> m in InitMultiplicities(v) && HasPer(t[ps[a]], m))
  {
    InitAllRecords(EmptyState, v, t, ps, a);
    DecodeEncode(t[ps[a]], v.EliminatePhase? && v.sampleN5);
  }

  /** The standard scan stays unbound exactly when every term has periodicity m and an undecisive phase. */
  lemma {:induction false} IndicatorScanUnbound(ts: seq<Term>, m: int)
    ensures IndicatorScan(ts, m, None).None? <==>
            forall i :: 0 <= i < |ts| ==> ts[i].per == m && ts[i].phase != 0.0 && ts[i].phase != 180.0
    decreases |ts|
  {
    if ts != [] {
      IndicatorScanUnbound(ts[1..], m);
      IndicatorScanValues(ts[1..], m, Some(0.0));
      assert forall i :: 1 <= i < |ts| ==> ts[1..][i - 1] == ts[i];
    }
  }

  /** The first phase scan of the constructor leaves its variable unbound. */
  predicate FirstScanUnbound(v: Variant, ts: seq<Term>) {
    match v
    case Standard => forall i :: 0 <= i < |ts| ==> ts[i].per == 1 && ts[i].phase != 0.0 && ts[i].phase != 180.0
    case ContinuousPhase => ts == []
    case EliminatePhase(_) => false
  }

  /** Once the phase variable is bound (or not used), every later step succeeds. */
  lemma {:induction false} InitPersBound(st: InitState, v: Variant, ts: seq<Term>, p: Key, ms: seq<int>)
    requires p in st.lat.bitstring && AllPositive(ms)
    requires st.carried.Some? || v.EliminatePhase?
    ensures InitPers(st, v, ts, p, ms).Some?
    ensures InitPers(st, v, ts, p, ms).value.carried.Some? || v.EliminatePhase?
    decreases |ms|
  {
    if ms != [] {
      if v.Standard? {
        IndicatorScanValues(ts, ms[0], st.carried);
      }
      if v.ContinuousPhase? && ts != [] {
        ContinuousScanAsWrittenLast(ts, ms[0], st.carried);
      }
      var r1 := InitPer(st, v, ts, p, ms[0]).value;
      InitPersBound(r1, v, ts, p, ms[1..]);
    }
  }

  lemma {:induction false} InitAllBound(st: InitState, v: Variant, t: Table, ps: seq<Key>)
    requires forall a :: 0 <= a < |ps| ==> ps[a] in t
    requires st.carried.Some? || v.EliminatePhase?
    ensures InitAll(st, v, t, ps).Some?
    decreases |ps|
  {
    if ps != [] {
      var s0 := StartBits(st, ps[0]);
      InitPersBound(s0, v, t[ps[0]], ps[0], InitMultiplicities(v));
      InitAllBound(InitPers(s0, v, t[ps[0]], ps[0], InitMultiplicities(v)).value, v, t, ps[1..]);
    }
  }

  /**
   The constructor fails on an unbound phase variable exactly when the very
   first phase scan (first selected torsion, periodicity 1) assigns nothing;
   every later scan starts from a bound variable.
   */
  lemma InitSucceeds(v: Variant, t: Table, ps: seq<Key>)
    requires forall a :: 0 <= a < |ps| ==> ps[a] in t
    ensures InitAll(EmptyState, v, t, ps).None? <==> ps != [] && FirstScanUnbound(v, t[ps[0]])
  {
    if ps != [] {
      var ms := InitMultiplicities(v);
      var ts := t[ps[0]];
      var s0 := StartBits(EmptyState, ps[0]);
      assert ms[0] == 1;
      IndicatorScanUnbound(ts, 1);
      if v.ContinuousPhase? && ts != [] {
        ContinuousScanAsWrittenLast(ts, 1, None);
      }
      var r1 := InitPer(s0, v, ts, ps[0], 1);
      if r1.Some? {
        InitPersBound(r1.value, v, ts, ps[0], ms[1..]);
        var r := InitPers(s0, v, ts, ps[0], ms);
        assert r == InitPers(r1.value, v, ts, ps[0], ms[1..]);
        InitAllBound(r.value, v, t, ps[1..]);
      }
    }
  }
}
