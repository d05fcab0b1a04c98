/**
 The force-field parameter store that the fitting model rewrites in place:
 a table from a four-atom-type torsion key to the ordered list of dihedral
 terms (periodicity, phase, force constant) attached to that key. A torsion
 and its reversal are separate entries of the table that the model keeps
 in step.
 */
module Store {

  /** A CHARMM atom-type label such as "CG331". */
  type AtomType = string

  /** A torsion key (A, B, C, D). */
  datatype Key = Key(a: AtomType, b: AtomType, c: AtomType, d: AtomType)

  /** The same torsion read from the other end: (D, C, B, A). */
  function Reverse(k: Key): Key
  {
    Key(k.d, k.c, k.b, k.a)
  }

  /** A key that reads the same from both ends is its own reversed twin. */
  predicate Palindromic(k: Key) {
    Reverse(k) == k
  }

  /** One dihedral term: force constant, periodicity and phase (degrees). */
  datatype Term = Term(phiK: real, per: int, phase: real)

  /** The zero-strength, zero-phase term of periodicity j used as padding. */
  function Placeholder(j: int): (t: Term)
    ensures t.per == j && t.phiK == 0.0 && t.phase == 0.0
  {
    Term(0.0, j, 0.0)
  }

  /** The dihedral-type table of a parameter set. */
  type Table = map<Key, seq<Term>>

  /** The mutable parameter set; only its dihedral-type table is modelled. */
  class ParameterSet {
    var dihedralTypes: Table

    constructor (dihedralTypes: Table)
      ensures this.dihedralTypes == dihedralTypes
    {
      this.dihedralTypes := dihedralTypes;
    }
  }

  /**
   Both orientations of p are present and the reversed list is at least as
   long as the forward one, so that every forward index is also a valid
   index of the reversed list (the model reads and writes the reversed list
   at the forward list's indices).
   */
  predicate Paired(t: Table, p: Key) {
    p in t && Reverse(p) in t && |t[p]| <= |t[Reverse(p)]|
  }

  predicate AllPaired(t: Table, ps: seq<Key>) {
    forall i :: 0 <= i < |ps| ==> Paired(t, ps[i])
  }

  /**
   No key is selected twice and no key is selected together with its
   reversal: the canonical, duplicate-free selection the model is given.
   */
  predicate Distinct(ps: seq<Key>) {
    forall i, j :: 0 <= i < j < |ps| ==> ps[i] != ps[j] && ps[i] != Reverse(ps[j])
  }

  /** The keys that processing torsion p may touch. */
  predicate Touches(p: Key, k: Key) {
    k == p || k == Reverse(p)
  }

  /** Some torsion of the selection ps touches key k. */
  predicate TouchedBy(ps: seq<Key>, k: Key) {
    exists i :: 0 <= i < |ps| && Touches(ps[i], k)
  }

  /**
   t2 has the same keys as t1, every list has the same length and every
   term keeps its periodicity: only force constants and phases differ.
   */
  predicate SameShape(t1: Table, t2: Table) {
    && t2.Keys == t1.Keys
    && (forall k :: k in t1 ==> |t2[k]| == |t1[k]|)
    && (forall k, i :: k in t1 && 0 <= i < |t1[k]| ==> t2[k][i].per == t1[k][i].per)
  }

  lemma SameShapeTrans(t1: Table, t2: Table, t3: Table)
    requires SameShape(t1, t2) && SameShape(t2, t3)
    ensures SameShape(t1, t3)
  {
  }

  lemma SameShapePaired(t1: Table, t2: Table, ps: seq<Key>)
    requires SameShape(t1, t2) && AllPaired(t1, ps)
    ensures AllPaired(t2, ps)
  {
  }

  /** Two distinct entries of a distinct selection never share a key. */
  lemma DistinctApart(ps: seq<Key>, i: nat, j: nat, k: Key)
    requires Distinct(ps) && i < |ps| && j < |ps| && i != j
    requires Touches(ps[i], k)
    ensures !Touches(ps[j], k)
  {
    if i < j {
      assert ps[i] != ps[j] && ps[i] != Reverse(ps[j]);
    } else {
      assert ps[j] != ps[i] && ps[j] != Reverse(ps[i]);
    }
  }

  /** Dropping the first torsion keeps a selection distinct. */
  lemma DistinctTail(ps: seq<Key>)
    requires Distinct(ps) && ps != []
    ensures Distinct(ps[1..])
  {
  }

  /** The store with the force constant of term i of key k set to v. */
  function WithPhiK(t: Table, k: Key, i: nat, v: real): Table
    requires k in t && i < |t[k]|
  {
    t[k := t[k][i := t[k][i].(phiK := v)]]
  }

  /** The store with the phase of term i of key k set to v. */
  function WithPhase(t: Table, k: Key, i: nat, v: real): Table
    requires k in t && i < |t[k]|
  {
    t[k := t[k][i := t[k][i].(phase := v)]]
  }

  /** Sets one force constant in place. */
  method SetPhiK(param: ParameterSet, k: Key, i: nat, v: real)
    requires k in param.dihedralTypes && i < |param.dihedralTypes[k]|
    modifies param
    ensures param.dihedralTypes == WithPhiK(old(param.dihedralTypes), k, i, v)
  {
    var ts := param.dihedralTypes[k];
    param.dihedralTypes := param.dihedralTypes[k := ts[i := ts[i].(phiK := v)]];
  }

  /** Sets one phase in place. */
  method SetPhase(param: ParameterSet, k: Key, i: nat, v: real)
    requires k in param.dihedralTypes && i < |param.dihedralTypes[k]|
    modifies param
    ensures param.dihedralTypes == WithPhase(old(param.dihedralTypes), k, i, v)
  {
    var ts := param.dihedralTypes[k];
    param.dihedralTypes := param.dihedralTypes[k := ts[i := ts[i].(phase := v)]];
  }
}
