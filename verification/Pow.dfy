/** The proof-of-work puzzle and the leading-zero-bit measure of peer identities. */
module Pow {
  import opened Hashes
  import opened Powers

  /** 0, 1, then thirty zeros. */
  const TARGET: seq<byte> :=
    [0, 1, 0, 0, 0, 0, 0, 0, 0, 0, 0, 0, 0, 0, 0, 0,
     0, 0, 0, 0, 0, 0, 0, 0, 0, 0, 0, 0, 0, 0, 0, 0]

  const PEER_ID_DIFFICULTY: nat := 16

  /** Lexicographic order of byte slices, a proper prefix being smaller. */
  predicate LexLess(a: seq<byte>, b: seq<byte>) {
    if b == [] then false
    else if a == [] then true
    else a[0] < b[0] || (a[0] == b[0] && LexLess(a[1..], b[1..]))
  }

  predicate Solves(digest: seq<byte>) {
    LexLess(digest, TARGET)
  }

  function BigEndian(bs: seq<byte>): nat {
    if bs == [] then 0 else bs[0] * Pow2(8 * (|bs| - 1)) + BigEndian(bs[1..])
  }

  /** Leading zero bits of one byte. */
  function LeadingZeros8(b: byte): nat {
    if b >= 128 then 0 else if b >= 64 then 1 else if b >= 32 then 2 else if b >= 16 then 3
    else if b >= 8 then 4 else if b >= 4 then 5 else if b >= 2 then 6 else if b >= 1 then 7 else 8
  }

  function LeadingZeroBits(bs: seq<byte>): nat {
    if bs == [] then 0
    else if bs[0] == 0 then 8 + LeadingZeroBits(bs[1..])
    else LeadingZeros8(bs[0])
  }

  /** The first k bits, read as part of a big-endian number, are zero. */
  ghost predicate HighBitsClear(bs: seq<byte>, k: nat)
    requires k <= 8 * |bs|
  {
    BigEndian(bs) < Pow2(8 * |bs| - k)
  }

  /** The program's count, with its early exit. */
  method CountLeadingZeroBits(bytes: seq<byte>) returns (count: nat)
    ensures count == LeadingZeroBits(bytes)
    ensures forall k: nat :: k <= 8 * |bytes| ==> (count >= k <==> HighBitsClear(bytes, k))
  {
    count := 0;
    var i := 0;
    while i < |bytes|
      invariant 0 <= i <= |bytes|
      invariant LeadingZeroBits(bytes) == count + LeadingZeroBits(bytes[i..])
    {
      if bytes[i] == 0 {
        count := count + 8;
      } else {
        count := count + LeadingZeros8(bytes[i]);
        break;
      }
      i := i + 1;
    }
    forall k: nat | k <= 8 * |bytes|
      ensures LeadingZeroBits(bytes) >= k <==> HighBitsClear(bytes, k)
    {
      LeadingZerosBoundValue(bytes, k);
    }
  }

  lemma {:induction false} BigEndianFits(bs: seq<byte>)
    ensures BigEndian(bs) < Pow2(8 * |bs|)
  {
    if bs != [] {
      BigEndianFits(bs[1..]);
      Pow2Adds(8, 8 * (|bs| - 1));
      assert Pow2(8) == 256;
      HighPart(bs[0], Pow2(8 * (|bs| - 1)), BigEndian(bs[1..]), 256);
    }
  }

  lemma ByteZeros(b: byte, k: nat)
    requires k <= 8
    ensures LeadingZeros8(b) >= k <==> b < Pow2(8 - k)
  {
    assert Pow2(0) == 1 && Pow2(1) == 2 && Pow2(2) == 4 && Pow2(3) == 8 && Pow2(4) == 16;
    assert Pow2(5) == 32 && Pow2(6) == 64 && Pow2(7) == 128 && Pow2(8) == 256;
  }

  /** A byte string has at least k leading zero bits exactly when its value is below 2^(8n-k). */
  lemma {:induction false} LeadingZerosBoundValue(bs: seq<byte>, k: nat)
    requires k <= 8 * |bs|
    ensures LeadingZeroBits(bs) >= k <==> HighBitsClear(bs, k)
  {
    if bs != [] {
      if k <= 8 {
        FirstByteDecides(bs, k);
      } else if bs[0] == 0 {
        LeadingZerosBoundValue(bs[1..], k - 8);
        assert 8 * |bs[1..]| - (k - 8) == 8 * |bs| - k;
      } else {
        FirstByteDecides(bs, 8);
        Pow2Grows(8 * |bs| - k, 8 * |bs| - 8);
      }
    }
  }

  lemma FirstByteDecides(bs: seq<byte>, k: nat)
    requires bs != [] && k <= 8
    ensures LeadingZeroBits(bs) >= k <==> HighBitsClear(bs, k)
    ensures k == 8 && bs[0] != 0 ==> LeadingZeroBits(bs) < 8
  {
    var n := 8 * (|bs| - 1);
    BigEndianFits(bs[1..]);
    Pow2Adds(8 - k, n);
    assert 8 - k + n == 8 * |bs| - k;
    ByteZeros(bs[0], k);
    HighPart(bs[0], Pow2(n), BigEndian(bs[1..]), Pow2(8 - k));
  }

  lemma HighPart(b: nat, unit: nat, low: nat, bound: nat)
    requires low < unit
    ensures b < bound <==> b * unit + low < bound * unit
  {
    if b < bound {
      assert (b + 1) * unit <= bound * unit;
    } else {
      assert b * unit >= bound * unit;
    }
  }

  lemma {:induction false} NotBelowZeros(a: seq<byte>, b: seq<byte>)
    requires |a| >= |b| && forall i :: 0 <= i < |b| ==> b[i] == 0
    ensures !LexLess(a, b)
  {
    if b != [] && a[0] == 0 {
      NotBelowZeros(a[1..], b[1..]);
    }
  }

  lemma TwoZeroBytes(digest: Digest, target: seq<byte>)
    requires |target| == 32 && target[0] == 0 && target[1] == 1
    requires forall i :: 2 <= i < 32 ==> target[i] == 0
    ensures LexLess(digest, target) <==> digest[0] == 0 && digest[1] == 0
    ensures LeadingZeroBits(digest) >= 16 <==> digest[0] == 0 && digest[1] == 0
  {
    var d1, t1 := digest[1..], target[1..];
    NotBelowZeros(d1[1..], t1[1..]);
    assert LexLess(digest, target) <==> digest[0] == 0 && LexLess(d1, t1);
  }

  /** The puzzle compares a 64-byte digest with a 32-byte target; it asks for the very number of
      leading zero bits that peer identities need. */
  lemma SolvesMeansSixteenZeroBits(digest: Digest)
    ensures Solves(digest) <==> LeadingZeroBits(digest) >= PEER_ID_DIFFICULTY
    ensures Solves(digest) <==> HighBitsClear(digest, PEER_ID_DIFFICULTY)
  {
    TwoZeroBytes(digest, TARGET);
    LeadingZerosBoundValue(digest, PEER_ID_DIFFICULTY);
  }
}
