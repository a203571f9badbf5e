/** The connect request: two byte strings, each behind a 16-bit length. */
module ConnectRequest {
  import opened Bytes

  const MAX_NETWORK: nat := 65533
  const MAX_ADDRESS: nat := 65535

  /** The format: length and bytes of the network, then of the address. A length that does not fit
      16 bits loses its high bits. */
  function Encoded(network: Bytes, address: Bytes): Bytes {
    PutU16(|network|) + network + PutU16(|address|) + address
  }

  /** `copy(buf[off:], src)` for a `src` that fits. */
  method CopyInto(buf: array<Byte>, off: nat, src: Bytes)
    requires off + |src| <= buf.Length
    modifies buf
    ensures buf[..off] == old(buf[..off])
    ensures buf[off..off + |src|] == src
    ensures buf[off + |src|..] == old(buf[off + |src|..])
  {
    for i := 0 to |src|
      invariant buf[..off] == old(buf[..off])
      invariant buf[off..off + i] == src[..i]
      invariant buf[off + i..] == old(buf[off + i..])
    {
      buf[off + i] := src[i];
      assert buf[off..off + i + 1] == src[..i] + [src[i]];
      assert buf[off + i + 1..] == buf[off + i..][1..];
    }
    assert src[..|src|] == src;
  }

  method EncodeConnectRequest(network: Bytes, address: Bytes) returns (buf: array<Byte>)
    ensures buf[..] == Encoded(network, address)
  {
    var size := 2 + |network| + 2 + |address|;
    buf := new Byte[size](_ => 0);
    var off := 0;
    CopyInto(buf, off, PutU16(|network|));
    off := off + 2;
    assert buf[..off] == PutU16(|network|);
    CopyInto(buf, off, network);
    off := off + |network|;
    assert buf[..off] == PutU16(|network|) + network by {
      assert buf[..off] == buf[..2] + buf[2..off];
    }
    CopyInto(buf, off, PutU16(|address|));
    off := off + 2;
    assert buf[..off] == PutU16(|network|) + network + PutU16(|address|) by {
      assert buf[..off] == buf[..off - 2] + buf[off - 2..off];
    }
    CopyInto(buf, off, address);
    assert buf[..] == buf[..off] + buf[off..];
    assert buf[off..] == buf[off..off + |address|];
  }

  datatype Decoded =
    | Request(network: Bytes, address: Bytes)
    | PayloadTooShort
    | InvalidNetworkLength
    | InvalidAddressLength
    | SliceOutOfRange  // a run-time panic

  /** DecodeConnectRequest. `2+netLen` is computed in 16 bits. */
  function DecodeConnectRequest(data: Bytes): Decoded {
    if |data| < 4 then PayloadTooShort
    else
      var netLen := U16(data[0..2]);
      if |data| < 4 + netLen then InvalidNetworkLength
      else
        var end := (2 + netLen) % 0x1_0000;
        if end < 2 then SliceOutOfRange
        else
          var network := data[2..end];
          var addrLen := U16(data[end..end + 2]);
          var off := end + 2;
          if |data| < off + addrLen then InvalidAddressLength
          else Request(network, data[off..off + addrLen])
  }

  /** The panic happens exactly when a network of 65534 or 65535 bytes is announced and present. */
  lemma PanicsIff(data: Bytes)
    ensures DecodeConnectRequest(data) == SliceOutOfRange <==>
      |data| >= 4 && U16(data[0..2]) > MAX_NETWORK && |data| >= 4 + U16(data[0..2])
  {
  }

  /** Exactly which payloads are refused, and with which error. */
  lemma RefusesIff(data: Bytes)
    ensures DecodeConnectRequest(data) == PayloadTooShort <==> |data| < 4
    ensures DecodeConnectRequest(data) == InvalidNetworkLength <==> 4 <= |data| < 4 + U16(data[0..2])
    ensures DecodeConnectRequest(data) == InvalidAddressLength <==>
      && |data| >= 4 && U16(data[0..2]) <= MAX_NETWORK && |data| >= 4 + U16(data[0..2])
      && var n := U16(data[0..2]); |data| < 4 + n + U16(data[2 + n..4 + n])
  {
  }

  /** `s` begins with the four parts of a request, the lengths within what the decoder carries. */
  ghost predicate HasParts(s: Bytes, network: Bytes, address: Bytes) {
    var n, a := |network|, |address|;
    && n <= MAX_NETWORK && a <= MAX_ADDRESS && 4 + n + a <= |s|
    && U16(s[0..2]) == n && s[2..2 + n] == network
    && U16(s[2 + n..4 + n]) == a && s[4 + n..4 + n + a] == address
  }

  lemma DecodesIff(s: Bytes, network: Bytes, address: Bytes)
    ensures DecodeConnectRequest(s) == Request(network, address) <==> HasParts(s, network, address)
  {
  }

  lemma EncodedHasParts(network: Bytes, address: Bytes, rest: Bytes)
    requires |network| <= MAX_NETWORK && |address| <= MAX_ADDRESS
    ensures HasParts(Encoded(network, address) + rest, network, address)
  {
  }

  /** A request comes back whole, whatever follows it, exactly when the network is at most 65533
      bytes and the address at most 65535. */
  lemma RoundTripIff(network: Bytes, address: Bytes, rest: Bytes)
    ensures DecodeConnectRequest(Encoded(network, address) + rest) == Request(network, address) <==>
      |network| <= MAX_NETWORK && |address| <= MAX_ADDRESS
  {
    DecodesIff(Encoded(network, address) + rest, network, address);
    if |network| <= MAX_NETWORK && |address| <= MAX_ADDRESS {
      EncodedHasParts(network, address, rest);
    }
  }

  /** The shortest network the 16-bit sum cannot carry makes the decoder panic. */
  lemma LongNetworkPanics()
    ensures DecodeConnectRequest(Encoded(seq(65534, _ => 0x74), [])) == SliceOutOfRange
  {
  }

  lemma FourParts(s: Bytes, i: nat, j: nat, k: nat, l: nat)
    requires i <= j <= k <= l <= |s|
    ensures s[0..i] + s[i..j] + s[j..k] + s[k..l] == s[..l]
  {
  }

  /** Whatever decodes begins with its own encoding. */
  lemma DecodedIsPrefix(data: Bytes, network: Bytes, address: Bytes)
    requires DecodeConnectRequest(data) == Request(network, address)
    ensures Encoded(network, address) <= data
  {
    var n, a := |network|, |address|;
    DecodesIff(data, network, address);
    U16Inverse(data[0..2]);
    U16Inverse(data[2 + n..4 + n]);
    FourParts(data, 2, 2 + n, 4 + n, 4 + n + a);
  }
}
