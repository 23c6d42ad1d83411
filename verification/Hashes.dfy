/** Block hashes: hex strings of 64-byte digests, the sentinel parent "0", and the
    little-endian number by which equally long branches are compared. */
module Hashes {
  import opened Wrappers

  type byte = x: int | 0 <= x < 256

  type Hash = string

  /** The parent of a first block. */
  const ROOT: Hash := "0"

  const DIGEST_BYTES: nat := 64

  /** The output of Blake2b512. */
  type Digest = bs: seq<byte> | |bs| == DIGEST_BYTES witness seq(DIGEST_BYTES, _ => 0)

  function HexDigit(n: int): char
    requires 0 <= n < 16
  {
    "0123456789abcdef"[n]
  }

  /** Decoding accepts both letter cases. */
  function Nibble(ch: char): Option<int> {
    if '0' <= ch <= '9' then Some(ch as int - '0' as int)
    else if 'a' <= ch <= 'f' then Some(ch as int - 'a' as int + 10)
    else if 'A' <= ch <= 'F' then Some(ch as int - 'A' as int + 10)
    else None
  }

  function Encode(bs: seq<byte>): (s: string)
    ensures |s| == 2 * |bs|
  {
    if bs == [] then "" else [HexDigit(bs[0] / 16), HexDigit(bs[0] % 16)] + Encode(bs[1..])
  }

  function Decode(s: string): Option<seq<byte>> {
    if |s| == 0 then Some([])
    else if |s| == 1 then None
    else
      match (Nibble(s[0]), Nibble(s[1]), Decode(s[2..]))
      case (Some(hi), Some(lo), Some(rest)) =>
        if 0 <= hi < 16 && 0 <= lo < 16 then Some([hi * 16 + lo] + rest) else None
      case _ => None
  }

  lemma {:induction false} DecodeEncode(bs: seq<byte>)
    ensures Decode(Encode(bs)) == Some(bs)
  {
    if bs != [] {
      DecodeEncode(bs[1..]);
      var s := Encode(bs);
      assert s[2..] == Encode(bs[1..]);
      DigitRoundTrip(bs[0] / 16);
      DigitRoundTrip(bs[0] % 16);
      assert [bs[0] / 16 * 16 + bs[0] % 16] + bs[1..] == bs;
    }
  }

  lemma DigitRoundTrip(n: int)
    requires 0 <= n < 16
    ensures Nibble(HexDigit(n)) == Some(n)
  {
  }

  lemma EncodeIsInjective(a: seq<byte>, b: seq<byte>)
    requires Encode(a) == Encode(b)
    ensures a == b
  {
    DecodeEncode(a);
    DecodeEncode(b);
  }

  function LittleEndian(bs: seq<byte>): nat {
    if bs == [] then 0 else bs[0] + 256 * LittleEndian(bs[1..])
  }

  lemma {:induction false} LittleEndianInjective(a: seq<byte>, b: seq<byte>)
    requires |a| == |b| && LittleEndian(a) == LittleEndian(b)
    ensures a == b
  {
    if a != [] {
      assert a[0] == LittleEndian(a) % 256 && b[0] == LittleEndian(b) % 256;
      LittleEndianInjective(a[1..], b[1..]);
      assert a == [a[0]] + a[1..] && b == [b[0]] + b[1..];
    }
  }

  /** What every hash that passed a block check looks like. */
  ghost predicate IsDigest(h: Hash) {
    exists bs: Digest :: h == Encode(bs)
  }

  /** The number that the branch comparison reads from a hash. */
  function Rank(h: Hash): nat {
    match Decode(h)
    case Some(bs) => LittleEndian(bs)
    case None => 0
  }

  /** The comparison decodes every digest, tells any two of them apart, and never meets the sentinel. */
  lemma DigestsAreRanked(h: Hash, g: Hash)
    requires IsDigest(h) && IsDigest(g)
    ensures Decode(h).Some? && h != ROOT
    ensures Rank(h) == Rank(g) ==> h == g
  {
    var a: Digest :| h == Encode(a);
    var b: Digest :| g == Encode(b);
    DecodeEncode(a);
    DecodeEncode(b);
    if Rank(h) == Rank(g) {
      LittleEndianInjective(a, b);
    }
  }

  /** The order of two digests read from the last byte: the last byte in which they differ decides. */
  ghost predicate IsBelow(a: seq<byte>, b: seq<byte>)
    requires |a| == |b|
  {
    exists i :: 0 <= i < |a| && a[i] < b[i] && a[i + 1..] == b[i + 1..]
  }

  lemma {:induction false} LittleEndianOrder(a: seq<byte>, b: seq<byte>)
    requires |a| == |b|
    ensures LittleEndian(a) < LittleEndian(b) <==> IsBelow(a, b)
  {
    if a != [] {
      LittleEndianOrder(a[1..], b[1..]);
      if a[1..] == b[1..] {
        SameRest(a, b);
      } else {
        BelowInRest(a, b);
        if LittleEndian(a[1..]) == LittleEndian(b[1..]) {
          LittleEndianInjective(a[1..], b[1..]);
        }
      }
    }
  }

  lemma SameRest(a: seq<byte>, b: seq<byte>)
    requires |a| == |b| > 0 && a[1..] == b[1..]
    ensures IsBelow(a, b) <==> a[0] < b[0]
  {
    forall i | 0 < i < |a| ensures a[i] == b[i] {
      assert a[i] == a[1..][i - 1] && b[i] == b[1..][i - 1];
    }
  }

  lemma BelowInRest(a: seq<byte>, b: seq<byte>)
    requires |a| == |b| > 0 && a[1..] != b[1..]
    ensures IsBelow(a, b) <==> IsBelow(a[1..], b[1..])
  {
    var x, y := a[1..], b[1..];
    if IsBelow(a, b) {
      var i :| 0 <= i < |a| && a[i] < b[i] && a[i + 1..] == b[i + 1..];
      assert x[i - 1] < y[i - 1] && x[i..] == y[i..];
    }
    if IsBelow(x, y) {
      var i :| 0 <= i < |x| && x[i] < y[i] && x[i + 1..] == y[i + 1..];
      assert a[i + 1] < b[i + 1] && a[i + 2..] == b[i + 2..];
    }
  }

  /** The number that the branch comparison reads orders digests from the last byte on. */
  lemma RankOrder(a: Digest, b: Digest)
    ensures Rank(Encode(a)) < Rank(Encode(b)) <==> IsBelow(a, b)
  {
    DecodeEncode(a);
    DecodeEncode(b);
    LittleEndianOrder(a, b);
  }

  /** A hash is written in lower-case digits, the higher half of each byte first. */
  lemma {:induction false} EncodeAt(bs: seq<byte>, i: nat)
    requires i < |bs|
    ensures Encode(bs)[2 * i] == "0123456789abcdef"[bs[i] / 16]
    ensures Encode(bs)[2 * i + 1] == "0123456789abcdef"[bs[i] % 16]
  {
    if i > 0 {
      EncodeAt(bs[1..], i - 1);
      assert Encode(bs)[2..] == Encode(bs[1..]);
    }
  }

  /** Two block hashes in the order of their digests. */
  ghost predicate HashBelow(h: Hash, g: Hash) {
    exists a: Digest, b: Digest :: h == Encode(a) && g == Encode(b) && IsBelow(a, b)
  }

  lemma RankIsHashOrder(h: Hash, g: Hash)
    requires IsDigest(h) && IsDigest(g)
    ensures Rank(h) < Rank(g) <==> HashBelow(h, g)
  {
    var a: Digest :| h == Encode(a);
    var b: Digest :| g == Encode(b);
    RankOrder(a, b);
    if HashBelow(h, g) {
      var a': Digest, b': Digest :| h == Encode(a') && g == Encode(b') && IsBelow(a', b');
      EncodeIsInjective(a, a');
      EncodeIsInjective(b, b');
    }
  }
}
