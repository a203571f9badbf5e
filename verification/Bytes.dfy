/** Bytes, and the big-endian integers of Go's encoding/binary. */
module Bytes {

  type Byte = b: int | 0 <= b < 256

  type Bytes = seq<Byte>

  /** `binary.BigEndian.Uint16`. */
  function U16(b: Bytes): (v: nat)
    requires |b| == 2
    ensures v < 0x1_0000
  {
    b[0] as int * 256 + b[1] as int
  }

  /** `binary.BigEndian.PutUint16(_, uint16(v))`: the conversion keeps the low 16 bits. */
  function PutU16(v: nat): (b: Bytes)
    ensures |b| == 2 && U16(b) == v % 0x1_0000
  {
    var low := v % 0x1_0000;
    [low / 256, low % 256]
  }

  lemma U16Inverse(b: Bytes)
    requires |b| == 2
    ensures PutU16(U16(b)) == b
  {
  }

  /** `binary.BigEndian.Uint32`. */
  function U32(b: Bytes): (v: nat)
    requires |b| == 4
    ensures v < 0x1_0000_0000
  {
    U16(b[..2]) * 0x1_0000 + U16(b[2..])
  }

  /** `binary.BigEndian.PutUint32(_, uint32(v))`: the conversion keeps the low 32 bits. */
  function PutU32(v: nat): (b: Bytes)
    ensures |b| == 4 && U32(b) == v % 0x1_0000_0000
  {
    var low := v % 0x1_0000_0000;
    var b := PutU16(low / 0x1_0000) + PutU16(low % 0x1_0000);
    assert b[..2] == PutU16(low / 0x1_0000) && b[2..] == PutU16(low % 0x1_0000);
    b
  }

  lemma Halves(high: nat, low: nat)
    requires high < 0x1_0000 && low < 0x1_0000
    ensures var v := high * 0x1_0000 + low;
      v % 0x1_0000_0000 == v && v / 0x1_0000 == high && v % 0x1_0000 == low
  {
  }

  lemma U32Inverse(b: Bytes)
    requires |b| == 4
    ensures PutU32(U32(b)) == b
  {
    var high, low := b[..2], b[2..];
    Halves(U16(high), U16(low));
    assert PutU16(U16(high)) == high by { U16Inverse(high); }
    assert PutU16(U16(low)) == low by { U16Inverse(low); }
    assert b == high + low;
  }

  /** `copy(buf, s)` into a buffer of `room` bytes: the first bytes, as many as fit. */
  function FirstBytes(s: Bytes, room: nat): Bytes {
    if |s| <= room then s else s[..room]
  }

  lemma Assoc<T>(a: seq<T>, b: seq<T>, c: seq<T>)
    ensures a + (b + c) == (a + b) + c
  {
  }

  lemma TakeAcross(a: Bytes, b: Bytes, k: nat)
    requires k <= |a| + |b|
    ensures k <= |a| ==> (a + b)[..k] == a[..k]
    ensures k >= |a| ==> (a + b)[..k] == a + b[..k - |a|]
  {
  }

  /** The concatenation of a list of byte strings. */
  function Concat(bs: seq<Bytes>): (r: Bytes)
  {
    if bs == [] then [] else bs[0] + Concat(bs[1..])
  }

  lemma {:induction false} ConcatAppend(bs: seq<Bytes>, cs: seq<Bytes>)
    ensures Concat(bs + cs) == Concat(bs) + Concat(cs)
  {
    if bs == [] {
      assert bs + cs == cs;
    } else {
      ConcatAppend(bs[1..], cs);
      assert (bs + cs)[0] == bs[0] && (bs + cs)[1..] == bs[1..] + cs;
      Assoc(bs[0], Concat(bs[1..]), Concat(cs));
    }
  }

  lemma ConcatSnoc(bs: seq<Bytes>, b: Bytes)
    ensures Concat(bs + [b]) == Concat(bs) + b
  {
    ConcatAppend(bs, [b]);
    assert Concat([b]) == b;
  }
}
