/** The download stream: frames as handleDownload writes them, each a 32-bit length and an encrypted
    data frame, and the reader that undoes them. */
module TunnelStream {
  import opened Bytes
  import opened Cipher
  import opened Wrappers
  import BS = ByteStreams
  import TF = TunnelFrame

  const MAX_FRAME: nat := 256 * 1024
  const REMOTE_BUFFER: nat := 32 * 1024

  /** A length and as many bytes: a frame of the stream, whatever the bytes are. */
  function Framed(e: Bytes): Bytes {
    PutU32(|e|) + e
  }

  /** The bytes handleDownload writes for one chunk of remote data. */
  function FrameBytes(a: Aead, id: TF.ConnId, nonce: Nonce, data: Bytes): Bytes {
    Framed(Encrypt(a, nonce, TF.DataPlaintext(id, data)))
  }

  /** One turn of the loop of streamReader.Read on the body that is still to come. */
  datatype Unit =
    | Payload(data: Bytes, rest: Bytes)  // no data if the frame is skipped
    | BodyEnds                           // io.ReadFull fails, or waits for more
    | FrameTooLarge
    | CannotDecrypt
    | SliceOutOfRange                    // a run-time panic

  function NextUnit(a: Aead, body: Bytes): Unit {
    if |body| < 4 then BodyEnds
    else
      var encLen := U32(body[..4]);
      if encLen > MAX_FRAME then FrameTooLarge
      else if |body| < 4 + encLen then BodyEnds
      else
        match Decrypt(a, body[4..4 + encLen])
        case None => CannotDecrypt
        case Some(dec) =>
          match PayloadOf(dec)
          case None => SliceOutOfRange
          case Some(data) => Payload(data, body[4 + encLen..])
  }

  /** The payload of a decrypted frame; `10+payloadLen` is computed in 32 bits, and `None` is a
      slice that ends before it begins. */
  function PayloadOf(dec: Bytes): Option<Bytes> {
    if |dec| <= 10 then Some([])
    else
      var end := (10 + U32(dec[6..10])) % 0x1_0000_0000;
      if end > |dec| then Some([])
      else if end < 10 then None
      else Some(dec[10..end])
  }

  lemma WrapsBelowTen(n: nat)
    requires n < 0x1_0000_0000
    ensures (10 + n) % 0x1_0000_0000 == if n >= 0xffff_fff6 then n - 0xffff_fff6 else 10 + n
  {
  }

  /** The panic needs a payload length within 10 of the 32-bit limit. */
  lemma PayloadPanicsIff(dec: Bytes)
    ensures PayloadOf(dec) == None <==> |dec| > 10 && U32(dec[6..10]) >= 0xffff_fff6
  {
    if |dec| > 10 {
      WrapsBelowTen(U32(dec[6..10]));
    }
  }

  /** So a frame of the stream makes the reader panic exactly when it is whole, of acceptable size,
      and decrypts to one with such a payload length. */
  lemma UnitPanicsIff(a: Aead, body: Bytes)
    ensures NextUnit(a, body) == SliceOutOfRange <==>
      && |body| >= 4 && U32(body[..4]) <= MAX_FRAME && |body| >= 4 + U32(body[..4])
      && var dec := Decrypt(a, body[4..4 + U32(body[..4])]);
         dec.Some? && |dec.value| > 10 && U32(dec.value[6..10]) >= 0xffff_fff6
  {
    if |body| >= 4 && |body| >= 4 + U32(body[..4]) {
      var dec := Decrypt(a, body[4..4 + U32(body[..4])]);
      if dec.Some? {
        PayloadPanicsIff(dec.value);
      }
    }
  }

  lemma UnitShrinks(a: Aead, body: Bytes)
    ensures NextUnit(a, body).Payload? ==> |NextUnit(a, body).rest| < |body|
  {
  }

  lemma PayloadOfPlaintext(id: TF.ConnId, data: Bytes)
    requires |data| < 0xffff_fff6
    ensures PayloadOf(TF.DataPlaintext(id, data)) == Some(data)
  {
    TF.HeaderParts(TF.MSG_DATA, id, |data|, data);
    WrapsBelowTen(|data|);
    var d := TF.DataPlaintext(id, data);
    assert d[10..10 + |data|] == data;
  }

  lemma SealedSize(a: Aead, id: TF.ConnId, nonce: Nonce, data: Bytes)
    requires Sound(a)
    ensures |Encrypt(a, nonce, TF.DataPlaintext(id, data))| == |data| + 38
  {
    assert |TF.DataPlaintext(id, data)| == 10 + |data|;
  }

  lemma ThreeParts(x: Bytes, y: Bytes, z: Bytes)
    ensures var s := (x + y) + z; s[..|x|] == x && s[|x|..|x| + |y|] == y && s[|x| + |y|..] == z
  {
  }

  /** A length in front of some bytes, and more after them. */
  lemma LengthPrefixed(e: Bytes, rest: Bytes)
    requires |e| < 0x1_0000_0000
    ensures var s := Framed(e) + rest;
      |s| == 4 + |e| + |rest| && U32(s[..4]) == |e| && s[4..4 + |e|] == e && s[4 + |e|..] == rest
  {
    ThreeParts(PutU32(|e|), e, rest);
  }

  /** The panic at its smallest: one byte of data in a frame that announces 2^32 - 10. */
  lemma HugeLengthPanics(a: Aead, id: TF.ConnId, nonce: Nonce)
    requires Sound(a)
    ensures var e := Encrypt(a, nonce, TF.Header(TF.MSG_DATA, id, 0xffff_fff6) + [0]);
      NextUnit(a, Framed(e)) == SliceOutOfRange
  {
    TF.HeaderParts(TF.MSG_DATA, id, 0xffff_fff6, [0]);
    var dec := TF.Header(TF.MSG_DATA, id, 0xffff_fff6) + [0];
    var e := Encrypt(a, nonce, dec);
    LengthPrefixed(e, []);
    assert Framed(e) + [] == Framed(e) && Decrypt(a, e) == Some(dec);
    UnitPanicsIff(a, Framed(e));
  }

  lemma FrameParts(a: Aead, id: TF.ConnId, nonce: Nonce, data: Bytes, rest: Bytes)
    requires Sound(a) && |data| + 38 < 0x1_0000_0000
    ensures var s := FrameBytes(a, id, nonce, data) + rest; var e := Encrypt(a, nonce, TF.DataPlaintext(id, data));
      |e| == |data| + 38 && |s| == 4 + |e| + |rest| && U32(s[..4]) == |e| && s[4..4 + |e|] == e && s[4 + |e|..] == rest
  {
    SealedSize(a, id, nonce, data);
    LengthPrefixed(Encrypt(a, nonce, TF.DataPlaintext(id, data)), rest);
  }

  /** A frame gives back its data, whatever follows, as long as it is within the limit; the chunks
      the server reads, of at most 32 KiB, always are. */
  lemma FrameComesBack(a: Aead, id: TF.ConnId, nonce: Nonce, data: Bytes, rest: Bytes)
    requires Sound(a)
    ensures |data| + 38 <= MAX_FRAME ==> NextUnit(a, FrameBytes(a, id, nonce, data) + rest) == Payload(data, rest)
    ensures MAX_FRAME < |data| + 38 < 0x1_0000_0000 ==>
      NextUnit(a, FrameBytes(a, id, nonce, data) + rest) == FrameTooLarge
    ensures |data| <= REMOTE_BUFFER ==> |data| + 38 <= MAX_FRAME
  {
    if |data| + 38 < 0x1_0000_0000 {
      FrameParts(a, id, nonce, data, rest);
      PayloadOfPlaintext(id, data);
    }
  }

  /** A frame that has not wholly arrived gives nothing yet. */
  lemma PartialFrame(a: Aead, id: TF.ConnId, nonce: Nonce, data: Bytes, k: nat)
    requires Sound(a) && |data| + 38 <= MAX_FRAME && k < |FrameBytes(a, id, nonce, data)|
    ensures NextUnit(a, FrameBytes(a, id, nonce, data)[..k]) == BodyEnds
  {
    var f := FrameBytes(a, id, nonce, data);
    FrameParts(a, id, nonce, data, []);
    assert f + [] == f;
    if k >= 4 {
      assert f[..k][..4] == f[..4];
    }
  }

  // ----- the reader -----

  /** All the bytes a body holds for the reader, up to where the reader would fail. */
  function Stream(a: Aead, body: Bytes): Bytes
    decreases |body|
  {
    UnitShrinks(a, body);
    match NextUnit(a, body)
    case Payload(data, rest) => data + Stream(a, rest)
    case _ => []
  }

  /** What the reader meets after the last payload it can return. */
  function StreamEnd(a: Aead, body: Bytes): (u: Unit)
    ensures !u.Payload?
    decreases |body|
  {
    UnitShrinks(a, body);
    match NextUnit(a, body)
    case Payload(_, rest) => StreamEnd(a, rest)
    case u => u
  }

  function FramedAll(es: seq<Bytes>): Bytes {
    if es == [] then [] else Framed(es[0]) + FramedAll(es[1..])
  }

  /** What a decrypted frame holds: the payload it announces if that is all there, otherwise nothing. */
  lemma PayloadExact(dec: Bytes)
    requires |dec| >= 10 ==> U32(dec[6..10]) < 0xffff_fff6
    ensures PayloadOf(dec) ==
      Some(if |dec| >= 10 && 10 + U32(dec[6..10]) <= |dec| then dec[10..10 + U32(dec[6..10])] else [])
  {
    if |dec| >= 10 {
      WrapsBelowTen(U32(dec[6..10]));
      assert |dec| == 10 ==> dec[10..10] == [];
    }
  }

  /** A frame the reader gets through. */
  predicate Good(a: Aead, e: Bytes) {
    |e| <= MAX_FRAME && Decrypt(a, e).Some? && PayloadOf(Decrypt(a, e).value).Some?
  }

  /** What the reader makes of any frame: refuses it by its size, fails on it, panics, or goes on. */
  lemma FrameUnit(a: Aead, e: Bytes, rest: Bytes)
    requires |e| < 0x1_0000_0000
    ensures NextUnit(a, Framed(e) + rest) ==
      if |e| > MAX_FRAME then FrameTooLarge
      else if Decrypt(a, e) == None then CannotDecrypt
      else if Good(a, e) then Payload(PayloadOf(Decrypt(a, e).value).value, rest)
      else SliceOutOfRange
  {
    LengthPrefixed(e, rest);
  }

  ghost predicate AllGood(a: Aead, es: seq<Bytes>) {
    forall i :: 0 <= i < |es| ==> Good(a, es[i])
  }

  /** The payloads of some frames, one after another. */
  ghost function Payloads(a: Aead, es: seq<Bytes>): Bytes
    requires AllGood(a, es)
  {
    if es == [] then [] else PayloadOf(Decrypt(a, es[0]).value).value + Payloads(a, es[1..])
  }

  /** After any frames it gets through, the reader has their payloads and meets what follows them. */
  lemma {:induction false} StreamAfter(a: Aead, es: seq<Bytes>, tail: Bytes)
    requires AllGood(a, es)
    ensures Stream(a, FramedAll(es) + tail) == Payloads(a, es) + Stream(a, tail)
    ensures StreamEnd(a, FramedAll(es) + tail) == StreamEnd(a, tail)
  {
    if es == [] {
      assert FramedAll(es) + tail == tail && [] + Stream(a, tail) == Stream(a, tail);
    } else {
      StreamAfter(a, es[1..], tail);
      Assoc(Framed(es[0]), FramedAll(es[1..]), tail);
      FrameUnit(a, es[0], FramedAll(es[1..]) + tail);
      Assoc(PayloadOf(Decrypt(a, es[0]).value).value, Payloads(a, es[1..]), Stream(a, tail));
    }
  }

  /** So the stream ends, with the right failure, at the first frame that is too large, does not decrypt
      or makes the reader panic, and nothing after it is ever returned. */
  lemma StreamStopsAt(a: Aead, es: seq<Bytes>, e: Bytes, rest: Bytes)
    requires AllGood(a, es) && |e| < 0x1_0000_0000 && !Good(a, e)
    ensures var body := FramedAll(es) + (Framed(e) + rest);
      && Stream(a, body) == Payloads(a, es)
      && StreamEnd(a, body) ==
           if |e| > MAX_FRAME then FrameTooLarge
           else if Decrypt(a, e) == None then CannotDecrypt else SliceOutOfRange
  {
    StreamAfter(a, es, Framed(e) + rest);
    FrameUnit(a, e, rest);
    assert Payloads(a, es) + [] == Payloads(a, es);
  }

  lemma UnitFrame(a: Aead, body: Bytes) returns (e: Bytes)
    requires NextUnit(a, body).Payload?
    ensures body == Framed(e) + NextUnit(a, body).rest && Good(a, e)
    ensures NextUnit(a, body).data == PayloadOf(Decrypt(a, e).value).value
  {
    e := body[4..4 + U32(body[..4])];
    U32Inverse(body[..4]);
    assert body == (body[..4] + e) + body[4 + |e|..];
  }

  /** And on any body at all, the reader gets exactly the payloads of the frames it begins with, up to
      one that it cannot get through. */
  lemma {:induction false} StreamOf(a: Aead, body: Bytes) returns (es: seq<Bytes>, tail: Bytes)
    ensures AllGood(a, es) && body == FramedAll(es) + tail && !NextUnit(a, tail).Payload?
    ensures Stream(a, body) == Payloads(a, es) && StreamEnd(a, body) == NextUnit(a, tail)
    decreases |body|
  {
    if NextUnit(a, body).Payload? {
      var e := UnitFrame(a, body);
      UnitShrinks(a, body);
      es, tail := StreamOf(a, NextUnit(a, body).rest);
      Assoc(Framed(e), FramedAll(es), tail);
      assert ([e] + es)[0] == e && ([e] + es)[1..] == es;
      es := [e] + es;
    } else {
      es, tail := [], body;
      assert FramedAll(es) + tail == body;
    }
  }

  datatype ReadResult = Data(p: Bytes) | Fail | Panic

  class StreamReader {
    const aead: Aead
    const body: BS.Reader   // the response body
    var decrypted: Bytes
    var off: nat

    ghost predicate Valid()
      reads this
    {
      off <= |decrypted|
    }

    /** Everything this reader will still return. */
    ghost function Pending(): Bytes
      requires Valid()
      reads this, body
    {
      decrypted[off..] + Stream(aead, body.rest)
    }

    constructor (aead: Aead, body: BS.Reader)
      ensures Valid() && this.aead == aead && this.body == body && Pending() == Stream(aead, body.rest)
    {
      this.aead, this.body, this.decrypted, this.off := aead, body, [], 0;
    }

    /** The part of the loop that reads and decrypts a frame. */
    method ReadFrame() returns (failed: Option<ReadResult>)
      modifies this, body
      ensures match NextUnit(aead, old(body.rest))
              case Payload(data, rest) => failed == None && decrypted == data && off == 0 && body.rest == rest
              case SliceOutOfRange => failed == Some(Panic)
              case _ => failed == Some(Fail)
      ensures failed.Some? ==> decrypted == [] && off == 0
    {
      ghost var s := body.rest;
      decrypted := [];
      off := 0;
      var lenBuf := body.ReadFull(4);
      if lenBuf.Err? {
        return Some(Fail);
      }
      var encLen := U32(lenBuf.value);
      if encLen > MAX_FRAME {
        return Some(Fail);
      }
      var buf := body.ReadFull(encLen);
      if buf.Err? {
        return Some(Fail);
      }
      assert s[4..][..encLen] == s[4..4 + encLen] && s[4..][encLen..] == s[4 + encLen..];
      var dec := Decrypt(aead, buf.value);
      if dec.None? {
        return Some(Fail);
      }
      failed := None;
      if |dec.value| > 10 {
        var payloadLen := U32(dec.value[6..10]);
        var end := (10 + payloadLen) % 0x1_0000_0000;
        if end <= |dec.value| {
          if end < 10 {
            return Some(Panic);
          }
          decrypted := dec.value[10..end];
        }
      }
    }

    /** A read with a buffer of `room` bytes takes from the front of what is pending and loses
        nothing; it fails exactly when nothing is pending, and then panics exactly when what follows
        the payloads is a frame that makes PayloadOf panic. */
    method Read(room: nat) returns (r: ReadResult)
      requires Valid()
      modifies this, body
      ensures Valid()
      ensures r.Data? <==> old(Pending()) != []
      ensures r.Data? ==> |r.p| <= room && (room > 0 ==> r.p != []) && old(Pending()) == r.p + Pending()
      ensures r.Data? ==> StreamEnd(aead, body.rest) == StreamEnd(aead, old(body.rest))
      ensures r == Panic <==> old(Pending()) == [] && StreamEnd(aead, old(body.rest)) == SliceOutOfRange
    {
      while off == |decrypted|
        invariant Valid() && Pending() == old(Pending())
        invariant StreamEnd(aead, body.rest) == StreamEnd(aead, old(body.rest))
        decreases |body.rest|
      {
        assert Pending() == Stream(aead, body.rest);
        UnitShrinks(aead, body.rest);
        var failed := ReadFrame();
        if failed.Some? {
          return failed.value;
        }
      }
      r := Data(FirstBytes(decrypted[off..], room));
      Split(decrypted[off..], Stream(aead, body.rest), room);
      off := off + |r.p|;
    }
  }

  lemma Split(s: Bytes, t: Bytes, room: nat)
    ensures var p := FirstBytes(s, room); s + t == p + (s[|p|..] + t)
  {
  }
}
