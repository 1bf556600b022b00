/** Bytes in memory and the integers that the programs overlay on them. The hosts are
    little-endian; both ends use host order. */
module Bytes {
  import opened Word64

  type Byte = x: int | 0 <= x < 256

  const SEQ_BYTES := 8

  function Encode(x: nat, k: nat): (b: seq<Byte>)
    ensures |b| == k
  {
    if k == 0 then [] else [x % 256] + Encode(x / 256, k - 1)
  }

  function Decode(b: seq<Byte>): nat {
    if b == [] then 0 else b[0] + 256 * Decode(b[1..])
  }

  function Pow256(k: nat): nat {
    if k == 0 then 1 else 256 * Pow256(k - 1)
  }

  lemma {:induction false} DecodeEncode(x: nat, k: nat)
    requires x < Pow256(k)
    ensures Decode(Encode(x, k)) == x
  {
    if k > 0 {
      DecodeEncode(x / 256, k - 1);
      assert Encode(x, k)[1..] == Encode(x / 256, k - 1);
    }
  }

  lemma {:induction false} DecodeBound(b: seq<Byte>)
    ensures Decode(b) < Pow256(|b|)
  {
    if b != [] {
      DecodeBound(b[1..]);
    }
  }

  /** The `unsigned long` at the start of a buffer. */
  function GetSeqNum(buf: seq<Byte>): Word
    requires |buf| >= SEQ_BYTES
  {
    DecodeBound(buf[..8]);
    assert Pow256(8) == TWO64;
    Decode(buf[..8])
  }

  /** The numbers at the starts of a sequence of datagrams. */
  function SeqNums(ds: seq<seq<Byte>>): (s: seq<Word>)
    requires forall i :: 0 <= i < |ds| ==> |ds[i]| >= SEQ_BYTES
    ensures |s| == |ds| && forall i :: 0 <= i < |s| ==> s[i] == GetSeqNum(ds[i])
  {
    seq(|ds|, i requires 0 <= i < |ds| => GetSeqNum(ds[i]))
  }

  ghost predicate AllAtLeast(ds: seq<seq<Byte>>, n: nat) {
    forall i :: 0 <= i < |ds| ==> |ds[i]| >= n
  }

  /** The buffer after an `unsigned long` has been stored at its start. */
  function Stamp(seqNum: Word, buf: seq<Byte>): (r: seq<Byte>)
    requires |buf| >= SEQ_BYTES
    ensures |r| == |buf| && GetSeqNum(r) == seqNum
  {
    var r := Encode(seqNum, 8) + buf[8..];
    assert r[..8] == Encode(seqNum, 8);
    assert Pow256(8) == TWO64;
    DecodeEncode(seqNum, 8);
    r
  }

  /** The buffer after its beginning has been overwritten. */
  function Overwrite(buf: seq<Byte>, data: seq<Byte>): (r: seq<Byte>)
    requires |data| <= |buf|
    ensures |r| == |buf|
  {
    data + buf[|data|..]
  }

  /** The `int` at offset `off`: 32 bits in two's complement. */
  function GetInt(buf: seq<Byte>, off: nat): int
    requires off + 4 <= |buf|
  {
    var w := Decode(buf[off..off + 4]);
    if w < 0x8000_0000 then w else w - TWO32
  }

  /** The `long` at offset `off`. */
  function GetLong(buf: seq<Byte>, off: nat): int
    requires off + 8 <= |buf|
  {
    Signed64(Decode(buf[off..off + 8]))
  }
}
