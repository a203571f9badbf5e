/** Addresses as SOCKS5 writes them (section 5 of RFC 1928): a type byte, an address, a port. The
    handshake and the stream targets read them with the same code. */
module SocksAddress {
  import opened Bytes
  import opened ByteStreams

  const ATYP_IPV4: nat := 1
  const ATYP_DOMAIN: nat := 3
  const ATYP_IPV6: nat := 4

  // ----- IP addresses as text -----

  /** What net.ParseIP makes of a text, seen through To4 and To16. */
  datatype Parsed = NotIp | V4(b: Bytes) | V6(b: Bytes)

  /** The net package's `ParseIP` and `IP.String`. */
  datatype IpText = IpText(parse: Bytes -> Parsed, format: Bytes -> Bytes)

  const MAPPED_PREFIX: Bytes := [0, 0, 0, 0, 0, 0, 0, 0, 0, 0, 0xff, 0xff]

  /** A 16-byte form of an IPv4 address. */
  predicate Mapped(b: Bytes) {
    |b| == 16 && b[..12] == MAPPED_PREFIX
  }

  /** What is taken for granted of the net package: text made from an address parses back to it, an
      IPv4 address in 16 bytes being the same as in 4, and parsing gives addresses of those sizes. */
  ghost predicate Canonical(ip: IpText) {
    && (forall b :: |b| == 4 ==> ip.parse(ip.format(b)) == V4(b))
    && (forall b :: |b| == 16 && !Mapped(b) ==> ip.parse(ip.format(b)) == V6(b))
    && (forall b :: Mapped(b) ==> ip.format(b) == ip.format(b[12..]))
    && (forall h :: ip.parse(h).V4? ==> |ip.parse(h).b| == 4)
    && (forall h :: ip.parse(h).V6? ==> |ip.parse(h).b| == 16 && !Mapped(ip.parse(h).b))
  }

  /** The text of a host after a trip through bytes: an IP literal is normalised, a name is not
      touched. */
  function CanonicalHost(ip: IpText, host: Bytes): Bytes {
    match ip.parse(host)
    case NotIp => host
    case V4(b) => ip.format(b)
    case V6(b) => ip.format(b)
  }

  // ----- the format -----

  datatype Address = IPv4(b: Bytes) | Domain(name: Bytes) | IPv6(b: Bytes)

  predicate WellFormed(a: Address) {
    match a
    case IPv4(b) => |b| == 4
    case Domain(name) => |name| <= 255
    case IPv6(b) => |b| == 16
  }

  function AddressBytes(a: Address, port: nat): Bytes
    requires WellFormed(a)
  {
    (match a
     case IPv4(b) => [1] + b
     case Domain(name) => [3, |name|] + name
     case IPv6(b) => [4] + b) + PutU16(port)
  }

  function HostOf(ip: IpText, a: Address): Bytes {
    match a
    case IPv4(b) => ip.format(b)
    case Domain(name) => name
    case IPv6(b) => ip.format(b)
  }

  // ----- reading it -----

  /** `io.ReadFull` on the bytes `s` of a reader that ends with `end`. */
  datatype Taken = Taken(p: Bytes, rest: Bytes) | Short(error: Error)

  function Take(s: Bytes, n: nat, end: Error): Taken {
    if n <= |s| then Taken(s[..n], s[n..])
    else Short(if s == [] then end else Unexpected(end))
  }

  datatype ReadAddress = Found(a: Address, port: nat, rest: Bytes) | Failed(error: Error)

  /** Reading an address: its type, then the bytes of that type, then the port. */
  function ParseAddress(s: Bytes, end: Error): ReadAddress {
    match Take(s, 1, end)
    case Short(e) => Failed(e)
    case Taken(atyp, s1) =>
      if atyp[0] == ATYP_IPV4 then
        (match Take(s1, 4, end)
         case Short(e) => Failed(e)
         case Taken(b, s2) => ParsePort(IPv4(b), s2, end))
      else if atyp[0] == ATYP_DOMAIN then
        (match Take(s1, 1, end)
         case Short(e) => Failed(e)
         case Taken(len, s2) =>
           match Take(s2, len[0], end)
           case Short(e) => Failed(e)
           case Taken(name, s3) => ParsePort(Domain(name), s3, end))
      else if atyp[0] == ATYP_IPV6 then
        (match Take(s1, 16, end)
         case Short(e) => Failed(e)
         case Taken(b, s2) => ParsePort(IPv6(b), s2, end))
      else Failed(ErrUnsupportedAddr)
  }

  function ParsePort(a: Address, s: Bytes, end: Error): ReadAddress {
    match Take(s, 2, end)
    case Short(e) => Failed(e)
    case Taken(p, rest) => Found(a, U16(p), rest)
  }

  method ReadFrom(r: Reader) returns (res: Result<(Address, nat)>)
    modifies r
    ensures match ParseAddress(old(r.rest), r.end)
            case Found(a, port, rest) => res == Ok((a, port)) && r.rest == rest
            case Failed(e) => res == Err(e)
  {
    var atyp := r.ReadFull(1);
    if atyp.Err? {
      return Err(atyp.error);
    }
    var a;
    if atyp.value[0] == ATYP_IPV4 {
      var b := r.ReadFull(4);
      if b.Err? {
        return Err(b.error);
      }
      a := IPv4(b.value);
    } else if atyp.value[0] == ATYP_DOMAIN {
      var len := r.ReadFull(1);
      if len.Err? {
        return Err(len.error);
      }
      var name := r.ReadFull(len.value[0]);
      if name.Err? {
        return Err(name.error);
      }
      a := Domain(name.value);
    } else if atyp.value[0] == ATYP_IPV6 {
      var b := r.ReadFull(16);
      if b.Err? {
        return Err(b.error);
      }
      a := IPv6(b.value);
    } else {
      return Err(ErrUnsupportedAddr);
    }
    var port := r.ReadFull(2);
    if port.Err? {
      return Err(port.error);
    }
    res := Ok((a, U16(port.value)));
  }

  lemma TakeFront(p: Bytes, rest: Bytes, end: Error)
    ensures Take(p + rest, |p|, end) == Taken(p, rest)
  {
  }

  lemma PortComesBack(a: Address, port: nat, rest: Bytes, end: Error)
    ensures ParsePort(a, PutU16(port) + rest, end) == Found(a, port % 0x1_0000, rest)
  {
  }

  /** Every address of the format is read back, with what follows left alone. */
  lemma AddressComesBack(a: Address, port: nat, rest: Bytes, end: Error)
    requires WellFormed(a)
    ensures ParseAddress(AddressBytes(a, port) + rest, end) == Found(a, port % 0x1_0000, rest)
  {
    var tail := PutU16(port) + rest;
    PortComesBack(a, port, rest, end);
    match a
    case IPv4(b) => FixedComesBack(ATYP_IPV4, b, PutU16(port), rest, end);
    case IPv6(b) => FixedComesBack(ATYP_IPV6, b, PutU16(port), rest, end);
    case Domain(name) =>
      Regroup([ATYP_DOMAIN, |name|], name, PutU16(port), rest);
      assert [ATYP_DOMAIN, |name|] + (name + tail) == [ATYP_DOMAIN] + ([|name|] + (name + tail));
      TakeFront([ATYP_DOMAIN], [|name|] + (name + tail), end);
      TakeFront([|name|], name + tail, end);
      TakeFront(name, tail, end);
  }

  lemma FixedComesBack(atyp: Byte, b: Bytes, p: Bytes, rest: Bytes, end: Error)
    ensures var s := (([atyp] + b) + p) + rest;
      Take(s, 1, end) == Taken([atyp], b + (p + rest)) && Take(b + (p + rest), |b|, end) == Taken(b, p + rest)
  {
  }

  lemma ParsePortSound(a: Address, s: Bytes, end: Error)
    ensures match ParsePort(a, s, end)
            case Found(a', port, rest) => a' == a && port < 0x1_0000 && s == PutU16(port) + rest
            case Failed(_) => true
  {
    if 2 <= |s| {
      U16Inverse(s[..2]);
      assert s == s[..2] + s[2..];
    }
  }

  lemma Regroup(head: Bytes, b: Bytes, p: Bytes, rest: Bytes)
    ensures head + (b + (p + rest)) == ((head + b) + p) + rest
  {
  }

  lemma DomainSound(s: Bytes, end: Error)
    requires s != [] && s[0] == ATYP_DOMAIN && ParseAddress(s, end).Found?
    ensures var r := ParseAddress(s, end);
      WellFormed(r.a) && r.port < 0x1_0000 && s == AddressBytes(r.a, r.port) + r.rest
  {
    var r := ParseAddress(s, end);
    var s1 := s[1..];
    var s2 := s1[1..];
    var name, s3 := s2[..s1[0]], s2[s1[0]..];
    ParsePortSound(Domain(name), s3, end);
    assert s2 == name + s3;
    assert s == [ATYP_DOMAIN, |name|] + s2;
    Regroup([ATYP_DOMAIN, |name|], name, PutU16(r.port), r.rest);
  }

  lemma FixedSound(s: Bytes, n: nat, end: Error)
    requires s != [] && ParseAddress(s, end).Found?
    requires (n == 4 && s[0] == ATYP_IPV4) || (n == 16 && s[0] == ATYP_IPV6)
    ensures var r := ParseAddress(s, end);
      WellFormed(r.a) && r.port < 0x1_0000 && s == AddressBytes(r.a, r.port) + r.rest
  {
    var r := ParseAddress(s, end);
    var s1 := s[1..];
    var b, s2 := s1[..n], s1[n..];
    ParsePortSound(r.a, s2, end);
    assert s1 == b + s2;
    assert s == [s[0]] + s1;
    Regroup([s[0]], b, PutU16(r.port), r.rest);
  }

  /** Whatever is read as an address is one, and nothing of the input is skipped. */
  lemma ParseAddressSound(s: Bytes, end: Error)
    ensures match ParseAddress(s, end)
            case Found(a, port, rest) => WellFormed(a) && port < 0x1_0000 && s == AddressBytes(a, port) + rest
            case Failed(_) => true
  {
    if ParseAddress(s, end).Found? {
      if s[0] == ATYP_DOMAIN {
        DomainSound(s, end);
      } else {
        FixedSound(s, if s[0] == ATYP_IPV4 then 4 else 16, end);
      }
    }
  }

  // ----- what is refused -----

  /** The first `k` bytes of an address end between two of its fields. */
  predicate BetweenFields(a: Address, k: nat) {
    || k <= 1
    || match a
       case IPv4(_) => k == 5
       case IPv6(_) => k == 17
       case Domain(name) => k == 2 || k == 2 + |name|
  }

  /** The error of a reader that ends too early: its own between two fields, and for io.EOF within one
      io.ErrUnexpectedEOF. */
  function CutError(between: bool, end: Error): Error {
    if between || end != EOF then end else UnexpectedEOF
  }

  lemma CutDomain(name: Bytes, port: nat, k: nat, end: Error)
    requires |name| <= 255 && 1 < k < |AddressBytes(Domain(name), port)|
    ensures ParseAddress(AddressBytes(Domain(name), port)[..k], end) ==
      Failed(CutError(BetweenFields(Domain(name), k), end))
  {
    var s := AddressBytes(Domain(name), port)[..k];
    assert s[0] == ATYP_DOMAIN && s[1] == |name|;
    if k >= 2 + |name| {
      assert s[1..][1..][..|name|] == name && |s[1..][1..][|name|..]| == k - 2 - |name|;
    }
  }

  lemma CutFixed(a: Address, port: nat, k: nat, end: Error)
    requires WellFormed(a) && !a.Domain? && 1 < k < |AddressBytes(a, port)|
    ensures ParseAddress(AddressBytes(a, port)[..k], end) == Failed(CutError(BetweenFields(a, k), end))
  {
    var s := AddressBytes(a, port)[..k];
    assert s[0] == (if a.IPv4? then ATYP_IPV4 else ATYP_IPV6) && |s[1..]| == k - 1;
  }

  /** An address cut off anywhere is refused with the error of the cut. */
  lemma CutAddress(a: Address, port: nat, k: nat, end: Error)
    requires WellFormed(a) && k < |AddressBytes(a, port)|
    ensures ParseAddress(AddressBytes(a, port)[..k], end) == Failed(CutError(BetweenFields(a, k), end))
  {
    if k > 1 {
      if a.Domain? {
        CutDomain(a.name, port, k, end);
      } else {
        CutFixed(a, port, k, end);
      }
    } else if k == 1 {
      assert AddressBytes(a, port)[..1][1..] == [];
    }
  }

  lemma UnknownType(s: Bytes, end: Error)
    requires s != [] && s[0] !in {1, 3, 4}
    ensures ParseAddress(s, end) == Failed(ErrUnsupportedAddr)
  {
  }

  /** Whatever else is refused is an address cut off. */
  lemma RefusedIsCut(s: Bytes, end: Error) returns (a: Address, port: nat)
    requires ParseAddress(s, end).Failed? && (s != [] ==> s[0] in {1, 3, 4})
    ensures WellFormed(a) && |s| < |AddressBytes(a, port)| && s == AddressBytes(a, port)[..|s|]
  {
    if s == [] {
      a, port := IPv4([0, 0, 0, 0]), 0;
    } else {
      var padded := s + seq(300, _ => 0);
      var r := PaddedIsFound(s, end);
      ParseAddressSound(padded, end);
      a, port := r.a, r.port;
    }
  }

  lemma PaddedIsFound(s: Bytes, end: Error) returns (r: ReadAddress)
    requires s != [] && ParseAddress(s, end).Failed? && s[0] in {1, 3, 4}
    ensures r == ParseAddress(s + seq(300, _ => 0), end) && r.Found? && |r.rest| < 300
  {
    var padded := s + seq(300, _ => 0);
    r := ParseAddress(padded, end);
    assert padded[0] == s[0] && |padded| == |s| + 300;
    assert |s| > 1 ==> padded[1] == s[1];
  }
}
