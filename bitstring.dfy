/**
 The multiplicity bitstring: one small integer per torsion whose bit (m-1)
 says whether periodicity m is active. It is built once from the terms
 already in the store (a sum of 2^(m-1) over the periodicities present) and
 decoded on every re-parameterisation by testing one bit per term.
 */
module Bitstring {
  import opened Store

  function Pow2(n: nat): (r: nat)
    ensures r >= 1
  {
    if n == 0 then 1 else 2 * Pow2(n - 1)
  }

  /**
   Bit (m-1) of b is set, i.e. `b & 2 ** (m - 1)` is non-zero for a
   non-negative b. Periodicities start at 1, so m is at least 1.
   */
  predicate HasBit(b: nat, m: nat)
    requires m >= 1
    decreases m
  {
    if m == 1 then b % 2 == 1 else HasBit(b / 2, m - 1)
  }

  /** The candidate periodicities: 1, 2, 3, 4, 6, and 5 only on request. */
  function Candidates(sampleN5: bool): (ms: seq<int>)
    ensures forall m :: m in ms <==> 1 <= m <= 6 && (m != 5 || sampleN5)
    ensures forall i, j :: 0 <= i < j < |ms| ==> ms[i] < ms[j]
  {
    if sampleN5 then [1, 2, 3, 4, 5, 6] else [1, 2, 3, 4, 6]
  }

  /** Some term of ts has periodicity m. */
  predicate HasPer(ts: seq<Term>, m: int) {
    exists i :: 0 <= i < |ts| && ts[i].per == m
  }

  predicate AllPositive(ms: seq<int>) {
    forall i :: 0 <= i < |ms| ==> ms[i] >= 1
  }

  /** The initial bitstring: 2^(m-1) summed over the m of ms present in ts. */
  function Encode(ts: seq<Term>, ms: seq<int>): nat
    requires AllPositive(ms)
  {
    if ms == [] then 0
    else (if HasPer(ts, ms[0]) then Pow2(ms[0] - 1) else 0) + Encode(ts, ms[1..])
  }

  /** The little-endian number whose bit i is bits[i]. */
  function FromBits(bits: seq<bool>): (r: nat)
    ensures r < Pow2(|bits|)
  {
    if bits == [] then 0 else (if bits[0] then 1 else 0) + 2 * FromBits(bits[1..])
  }

  /** For each periodicity 1..6: is it a candidate and present in ts? */
  function Presence(ts: seq<Term>, sampleN5: bool): (bits: seq<bool>)
    ensures |bits| == 6
  {
    seq(6, i requires 0 <= i < 6 => (i + 1) in Candidates(sampleN5) && HasPer(ts, i + 1))
  }

  /** A number below 2^n has no bit set above bit n-1: periodicities above n read as off. */
  lemma {:induction false} HasBitHigh(b: nat, n: nat, m: nat)
    requires m >= 1 && b < Pow2(n) && m > n
    ensures !HasBit(b, m)
    decreases m
  {
    if m > 1 {
      if n == 0 {
        HasBitHigh(b / 2, 0, m - 1);
      } else {
        HasBitHigh(b / 2, n - 1, m - 1);
      }
    }
  }

  /** Decoding bit m of a binary number gives back the bit it was built from. */
  lemma {:induction false} FromBitsHasBit(bits: seq<bool>, m: nat)
    requires m >= 1
    ensures HasBit(FromBits(bits), m) <==> m <= |bits| && bits[m - 1]
  {
    if bits == [] {
      HasBitHigh(0, 0, m);
    } else {
      var b0 := if bits[0] then 1 else 0;
      var rest := FromBits(bits[1..]);
      assert FromBits(bits) == b0 + 2 * rest;
      assert (b0 + 2 * rest) % 2 == b0;
      assert (b0 + 2 * rest) / 2 == rest;
      if m > 1 {
        FromBitsHasBit(bits[1..], m - 1);
      }
    }
  }

  function Bit(b: bool): nat {
    if b then 1 else 0
  }

  lemma FromSixBits(bits: seq<bool>)
    requires |bits| == 6
    ensures FromBits(bits) == Bit(bits[0]) + 2 * Bit(bits[1]) + 4 * Bit(bits[2])
                              + 8 * Bit(bits[3]) + 16 * Bit(bits[4]) + 32 * Bit(bits[5])
  {
    assert bits[5..][1..] == [];
    assert bits[4..][1..] == bits[5..] && bits[3..][1..] == bits[4..];
    assert bits[2..][1..] == bits[3..] && bits[1..][1..] == bits[2..];
    assert FromBits(bits[5..]) == Bit(bits[5]);
    assert FromBits(bits[4..]) == Bit(bits[4]) + 2 * Bit(bits[5]);
    assert FromBits(bits[3..]) == Bit(bits[3]) + 2 * FromBits(bits[4..]);
    assert FromBits(bits[2..]) == Bit(bits[2]) + 2 * FromBits(bits[3..]);
    assert FromBits(bits[1..]) == Bit(bits[1]) + 2 * FromBits(bits[2..]);
    assert FromBits(bits) == Bit(bits[0]) + 2 * FromBits(bits[1..]);
  }

  lemma EncodeStep(ts: seq<Term>, ms: seq<int>)
    requires AllPositive(ms) && ms != []
    ensures Encode(ts, ms) == Pow2(ms[0] - 1) * Bit(HasPer(ts, ms[0])) + Encode(ts, ms[1..])
  {
  }

  lemma EncodeFour(ts: seq<Term>)
    ensures Encode(ts, [2, 3, 4, 6]) == 2 * Bit(HasPer(ts, 2)) + 4 * Bit(HasPer(ts, 3)) + 8 * Bit(HasPer(ts, 4))
                                        + 32 * Bit(HasPer(ts, 6))
  {
    assert Pow2(5) == 32 && Pow2(3) == 8 && Pow2(2) == 4 && Pow2(1) == 2;
    EncodeStep(ts, [6]);
    assert [6][1..] == [];
    EncodeStep(ts, [4, 6]);
    assert [4, 6][1..] == [6];
    EncodeStep(ts, [3, 4, 6]);
    assert [3, 4, 6][1..] == [4, 6];
    EncodeStep(ts, [2, 3, 4, 6]);
    assert [2, 3, 4, 6][1..] == [3, 4, 6];
  }

  lemma EncodeFive(ts: seq<Term>)
    ensures Encode(ts, [2, 3, 4, 5, 6]) == 2 * Bit(HasPer(ts, 2)) + 4 * Bit(HasPer(ts, 3)) + 8 * Bit(HasPer(ts, 4))
                                           + 16 * Bit(HasPer(ts, 5)) + 32 * Bit(HasPer(ts, 6))
  {
    assert Pow2(5) == 32 && Pow2(4) == 16 && Pow2(3) == 8 && Pow2(2) == 4 && Pow2(1) == 2;
    EncodeStep(ts, [6]);
    assert [6][1..] == [];
    EncodeStep(ts, [5, 6]);
    assert [5, 6][1..] == [6];
    EncodeStep(ts, [4, 5, 6]);
    assert [4, 5, 6][1..] == [5, 6];
    EncodeStep(ts, [3, 4, 5, 6]);
    assert [3, 4, 5, 6][1..] == [4, 5, 6];
    EncodeStep(ts, [2, 3, 4, 5, 6]);
    assert [2, 3, 4, 5, 6][1..] == [3, 4, 5, 6];
  }

  /** The initial bitstring is the sum of 2^(m-1) over the candidate periodicities present. */
  lemma EncodeAsSum(ts: seq<Term>, sampleN5: bool)
    ensures Encode(ts, Candidates(sampleN5))
            == Bit(HasPer(ts, 1)) + 2 * Bit(HasPer(ts, 2)) + 4 * Bit(HasPer(ts, 3)) + 8 * Bit(HasPer(ts, 4))
               + 16 * Bit(sampleN5 && HasPer(ts, 5)) + 32 * Bit(HasPer(ts, 6))
  {
    var c := Candidates(sampleN5);
    EncodeStep(ts, c);
    assert Pow2(0) == 1;
    if sampleN5 {
      assert c[1..] == [2, 3, 4, 5, 6];
      EncodeFive(ts);
    } else {
      assert c[1..] == [2, 3, 4, 6];
      EncodeFour(ts);
    }
  }

  /** The sum over the candidates is the binary number of the presence bits. */
  lemma EncodeIsBinary(ts: seq<Term>, sampleN5: bool)
    ensures Encode(ts, Candidates(sampleN5)) == FromBits(Presence(ts, sampleN5))
  {
    var bits := Presence(ts, sampleN5);
    EncodeAsSum(ts, sampleN5);
    FromSixBits(bits);
    assert bits[0] == HasPer(ts, 1) && bits[1] == HasPer(ts, 2) && bits[2] == HasPer(ts, 3);
    assert bits[3] == HasPer(ts, 4) && bits[4] == (sampleN5 && HasPer(ts, 5)) && bits[5] == HasPer(ts, 6);
  }

  /**
   Round trip: decoding the initial bitstring gives back exactly the set of
   candidate periodicities present in the terms, and the value fits the
   0..63 range of the bitstring variable.
   */
  lemma DecodeEncode(ts: seq<Term>, sampleN5: bool)
    ensures Encode(ts, Candidates(sampleN5)) < 64
    ensures forall m: nat :: m >= 1 ==>
              (HasBit(Encode(ts, Candidates(sampleN5)), m) <==> m in Candidates(sampleN5) && HasPer(ts, m))
  {
    var bits := Presence(ts, sampleN5);
    EncodeIsBinary(ts, sampleN5);
    assert Pow2(6) == 64;
    forall m: nat | m >= 1
      ensures HasBit(FromBits(bits), m) <==> m in Candidates(sampleN5) && HasPer(ts, m)
    {
      FromBitsHasBit(bits, m);
    }
  }
}
