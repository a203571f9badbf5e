/** The first bytes of a multiplexed stream: a stream type and, unless it is a forward, the target
    to dial as a SOCKS address. */
module StreamTarget {
  import opened Bytes
  import opened ByteStreams
  import SA = SocksAddress
  import SH = SocksHandshake

  const STREAM_FORWARD: nat := 3

  /** How WriteTarget classifies a host. */
  datatype Classified = Fits(a: SA.Address) | TooLong

  function Classify(ip: SA.IpText, host: Bytes): (c: Classified)
    ensures SA.Canonical(ip) && c.Fits? ==> SA.WellFormed(c.a)
  {
    match ip.parse(host)
    case V4(b) => Fits(SA.IPv4(b))
    case V6(b) => Fits(SA.IPv6(b))
    case NotIp => if |host| > 255 then TooLong else Fits(SA.Domain(host))
  }

  /** `uint16(target.Port)`. */
  function Port16(port: int): nat {
    port % 0x1_0000
  }

  /** What a successful WriteTarget puts out. */
  function TargetBytes(streamType: Byte, a: SA.Address, port: int): Bytes
    requires SA.WellFormed(a)
  {
    [streamType] + SA.AddressBytes(a, Port16(port))
  }

  datatype WriteResult = Written | HostnameTooLong | WriteFailed

  /** What goes out after the stream type if the writer never fails. That a name is too long is
      noticed only after the address type. */
  function AddressOutput(ip: SA.IpText, target: SH.Target): Bytes
    requires SA.Canonical(ip)
  {
    match Classify(ip, target.host)
    case TooLong => [SA.ATYP_DOMAIN]
    case Fits(a) => SA.AddressBytes(a, Port16(target.port))
  }

  function TargetOutput(ip: SA.IpText, streamType: Byte, target: SH.Target): Bytes
    requires SA.Canonical(ip)
  {
    [streamType] + if streamType == STREAM_FORWARD then [] else AddressOutput(ip, target)
  }

  /** `w.Write(p)` with its error only. */
  method WriteAll(w: Writer, p: Bytes) returns (ok: bool)
    modifies w
    ensures ok <==> |p| <= old(w.room)
    ensures w.out == old(w.out) + FirstBytes(p, old(w.room))
    ensures ok ==> w.room == old(w.room) - |p|
  {
    var n;
    n, ok := w.Write(p);
    assert p[..n] == FirstBytes(p, old(w.room));
  }

  /** A write of `p`, followed if it succeeds by writes of `x` in all, puts out as much of `p + x` as
      there is room for. */
  lemma Chain(out: Bytes, p: Bytes, x: Bytes, room: nat)
    ensures |p| > room ==> FirstBytes(p, room) == FirstBytes(p + x, room)
    ensures |p| <= room ==> (out + p) + FirstBytes(x, room - |p|) == out + FirstBytes(p + x, room)
  {
    if |p| <= room < |p + x| {
      assert (p + x)[..room] == p + x[..room - |p|];
    }
  }

  method WriteHostPort(w: Writer, addr: Bytes, port: Bytes) returns (ok: bool)
    modifies w
    ensures w.out == old(w.out) + FirstBytes(addr + port, old(w.room))
    ensures ok <==> |addr + port| <= old(w.room)
  {
    Chain(w.out, addr, port, w.room);
    ok := WriteAll(w, addr);
    if ok {
      ok := WriteAll(w, port);
    }
  }

  method WriteNamePort(w: Writer, name: Bytes, port: Bytes) returns (ok: bool)
    requires |name| <= 255
    modifies w
    ensures w.out == old(w.out) + FirstBytes([|name|] + (name + port), old(w.room))
    ensures ok <==> |[|name|] + (name + port)| <= old(w.room)
  {
    Chain(w.out, [|name|], name + port, w.room);
    ok := WriteAll(w, [|name|]);
    if ok {
      ok := WriteHostPort(w, name, port);
    }
  }

  /** The output as the writes cut it up. */
  lemma OutputParts(ip: SA.IpText, target: SH.Target)
    requires SA.Canonical(ip)
    ensures var port := PutU16(Port16(target.port));
      AddressOutput(ip, target) ==
        match ip.parse(target.host)
        case V4(b) => [SA.ATYP_IPV4] + (b + port)
        case V6(b) => [SA.ATYP_IPV6] + (b + port)
        case NotIp =>
          [SA.ATYP_DOMAIN] + if |target.host| > 255 then [] else [|target.host|] + (target.host + port)
  {
    var port := PutU16(Port16(target.port));
    match ip.parse(target.host)
    case V4(b) => Assoc([SA.ATYP_IPV4], b, port);
    case V6(b) => Assoc([SA.ATYP_IPV6], b, port);
    case NotIp =>
      if |target.host| <= 255 {
        Assoc([SA.ATYP_DOMAIN, |target.host|], target.host, port);
      }
  }

  /** The part of WriteTarget after the stream type. */
  method WriteAddress(w: Writer, target: SH.Target, ip: SA.IpText) returns (res: WriteResult)
    requires SA.Canonical(ip)
    modifies w
    ensures w.out == old(w.out) + FirstBytes(AddressOutput(ip, target), old(w.room))
    ensures res == if |AddressOutput(ip, target)| > old(w.room) then WriteFailed
                   else if Classify(ip, target.host).TooLong? then HostnameTooLong else Written
  {
    OutputParts(ip, target);
    var parsed := ip.parse(target.host);
    var atyp: Byte := if parsed.V4? then SA.ATYP_IPV4 else if parsed.V6? then SA.ATYP_IPV6 else SA.ATYP_DOMAIN;
    var addr := if parsed.NotIp? then target.host else parsed.b;
    var port := PutU16(Port16(target.port));
    Chain(w.out, [atyp], AddressOutput(ip, target)[1..], w.room);
    assert AddressOutput(ip, target) == [atyp] + AddressOutput(ip, target)[1..];
    var ok := WriteAll(w, [atyp]);
    if !ok {
      return WriteFailed;
    }
    if atyp == SA.ATYP_DOMAIN {
      if |addr| > 255 {
        return HostnameTooLong;
      }
      ok := WriteNamePort(w, addr, port);
    } else {
      ok := WriteHostPort(w, addr, port);
    }
    res := if ok then Written else WriteFailed;
  }

  /** Writing stops at the first failed write, and at a name that is too long; what went out is in
      every case as much of the output as the writer took. */
  method WriteTarget(w: Writer, streamType: Byte, target: SH.Target, ip: SA.IpText) returns (res: WriteResult)
    requires SA.Canonical(ip)
    modifies w
    ensures w.out == old(w.out) + FirstBytes(TargetOutput(ip, streamType, target), old(w.room))
    ensures res == if |TargetOutput(ip, streamType, target)| > old(w.room) then WriteFailed
                   else if streamType != STREAM_FORWARD && Classify(ip, target.host).TooLong? then HostnameTooLong
                   else Written
  {
    Chain(w.out, [streamType], if streamType == STREAM_FORWARD then [] else AddressOutput(ip, target), w.room);
    var ok := WriteAll(w, [streamType]);
    if !ok {
      return WriteFailed;
    }
    if streamType == STREAM_FORWARD {
      return Written;
    }
    res := WriteAddress(w, target, ip);
  }

  // ----- reading it -----

  datatype ReadTargetResult = Got(streamType: Byte, target: SH.Target, rest: Bytes) | Failed(error: Error)

  const NO_TARGET := SH.Target([], 0)

  function ParseTarget(ip: SA.IpText, s: Bytes, end: Error): ReadTargetResult {
    match SA.Take(s, 1, end)
    case Short(e) => Failed(e)
    case Taken(t, s1) =>
      if t[0] == STREAM_FORWARD then Got(t[0], NO_TARGET, s1)
      else
        match SA.ParseAddress(s1, end)
        case Failed(e) => Failed(e)
        case Found(a, port, rest) => Got(t[0], SH.Target(SA.HostOf(ip, a), port), rest)
  }

  method ReadTarget(r: Reader, ip: SA.IpText) returns (res: Result<(Byte, SH.Target)>)
    modifies r
    ensures match ParseTarget(ip, old(r.rest), r.end)
            case Failed(e) => res == Err(e)
            case Got(t, target, rest) => res == Ok((t, target)) && r.rest == rest
  {
    var t := r.ReadFull(1);
    if t.Err? {
      return Err(t.error);
    }
    if t.value[0] == STREAM_FORWARD {
      return Ok((t.value[0], NO_TARGET));
    }
    var addr := SA.ReadFrom(r);
    if addr.Err? {
      return Err(addr.error);
    }
    res := Ok((t.value[0], SH.Target(SA.HostOf(ip, addr.value.0), addr.value.1)));
  }

  // ----- round trips -----

  lemma HostOfClassified(ip: SA.IpText, host: Bytes)
    requires Classify(ip, host).Fits?
    ensures SA.HostOf(ip, Classify(ip, host).a) == SA.CanonicalHost(ip, host)
  {
  }

  /** Whatever was written is read back, followed by anything: the stream type, the host in
      canonical text and the port's low 16 bits. */
  lemma TargetComesBack(ip: SA.IpText, streamType: Byte, target: SH.Target, rest: Bytes, end: Error)
    requires SA.Canonical(ip) && streamType != STREAM_FORWARD && Classify(ip, target.host).Fits?
    ensures ParseTarget(ip, TargetBytes(streamType, Classify(ip, target.host).a, target.port) + rest, end) ==
      Got(streamType, SH.Target(SA.CanonicalHost(ip, target.host), Port16(target.port)), rest)
  {
    AddressAfterType(ip, streamType, Classify(ip, target.host).a, Port16(target.port), rest, end);
    HostOfClassified(ip, target.host);
  }

  lemma AddressAfterType(ip: SA.IpText, streamType: Byte, a: SA.Address, port: nat, rest: Bytes, end: Error)
    requires streamType != STREAM_FORWARD && SA.WellFormed(a) && port < 0x1_0000
    ensures ParseTarget(ip, ([streamType] + SA.AddressBytes(a, port)) + rest, end) ==
      Got(streamType, SH.Target(SA.HostOf(ip, a), port), rest)
  {
    Assoc([streamType], SA.AddressBytes(a, port), rest);
    SA.TakeFront([streamType], SA.AddressBytes(a, port) + rest, end);
    SA.AddressComesBack(a, port, rest, end);
  }

  lemma ForwardComesBack(ip: SA.IpText, rest: Bytes, end: Error)
    ensures ParseTarget(ip, [STREAM_FORWARD] + rest, end) == Got(STREAM_FORWARD, NO_TARGET, rest)
  {
  }

  /** The host text of an address in SOCKS form is already canonical unless the client wrote it as
      a name. */
  lemma AcceptedHostIsCanonical(ip: SA.IpText, a: SA.Address)
    requires SA.Canonical(ip) && SA.WellFormed(a)
    ensures !a.Domain? ==> SA.CanonicalHost(ip, SA.HostOf(ip, a)) == SA.HostOf(ip, a)
    ensures Classify(ip, SA.HostOf(ip, a)).Fits?
  {
  }

  /** Every CONNECT request the handshake accepts can be written as a target without error or a
      truncated port, and is read back with whatever follows left alone: the same type and port, and
      the same host unless the client sent an IP literal as a name, which comes back canonical. */
  lemma AcceptedRequestComesBack(ip: SA.IpText, s: Bytes, end: Error, streamType: Byte, rest: Bytes, end': Error)
    requires SA.Canonical(ip) && SH.Shake(s, end, true).Accepted? && streamType != STREAM_FORWARD
    ensures var h := SH.Shake(s, end, true); var host := SA.HostOf(ip, h.a);
      && Classify(ip, host).Fits?
      && ParseTarget(ip, TargetBytes(streamType, Classify(ip, host).a, h.port) + rest, end') ==
           Got(streamType, SH.Target(SA.CanonicalHost(ip, host), h.port), rest)
      && (!h.a.Domain? ==> SA.CanonicalHost(ip, host) == host)
  {
    var h := SH.Shake(s, end, true);
    var methods, rsv := SH.AcceptedBegins(s, end, true);
    AddressComesBack(ip, h.a, h.port, streamType, rest, end');
  }

  lemma AddressComesBack(ip: SA.IpText, a: SA.Address, port: nat, streamType: Byte, rest: Bytes, end: Error)
    requires SA.Canonical(ip) && SA.WellFormed(a) && port < 0x1_0000 && streamType != STREAM_FORWARD
    ensures var host := SA.HostOf(ip, a);
      && Classify(ip, host).Fits?
      && ParseTarget(ip, TargetBytes(streamType, Classify(ip, host).a, port) + rest, end) ==
           Got(streamType, SH.Target(SA.CanonicalHost(ip, host), port), rest)
      && (!a.Domain? ==> SA.CanonicalHost(ip, host) == host)
  {
    var host := SA.HostOf(ip, a);
    assert Port16(port) == port;
    assert Classify(ip, host).Fits? && (!a.Domain? ==> SA.CanonicalHost(ip, host) == host) by {
      AcceptedHostIsCanonical(ip, a);
    }
    TargetComesBack(ip, streamType, SH.Target(host, port), rest, end);
  }

  // ----- what WriteTarget wrote, read by ReadTarget -----

  /** The bytes of a target that is written without an error are read back. */
  lemma OutputComesBack(ip: SA.IpText, streamType: Byte, target: SH.Target, rest: Bytes, end: Error)
    requires SA.Canonical(ip) && (streamType != STREAM_FORWARD ==> Classify(ip, target.host).Fits?)
    ensures ParseTarget(ip, TargetOutput(ip, streamType, target) + rest, end) ==
      Got(streamType,
          if streamType == 3 then SH.Target([], 0)
          else SH.Target(SA.CanonicalHost(ip, target.host), target.port % 0x1_0000), rest)
  {
    if streamType == STREAM_FORWARD {
      assert TargetOutput(ip, streamType, target) == [STREAM_FORWARD];
      ForwardComesBack(ip, rest, end);
    } else {
      TargetComesBack(ip, streamType, target, rest, end);
    }
  }

  lemma CutTarget(ip: SA.IpText, streamType: Byte, a: SA.Address, port: nat, k: nat, end: Error)
    requires SA.WellFormed(a) && streamType != STREAM_FORWARD && k < 1 + |SA.AddressBytes(a, port)|
    ensures ParseTarget(ip, ([streamType] + SA.AddressBytes(a, port))[..k], end) ==
      Failed(SA.CutError(k <= 1 || SA.BetweenFields(a, k - 1), end))
  {
    if k > 0 {
      var s := ([streamType] + SA.AddressBytes(a, port))[..k];
      assert s[..1] == [streamType] && s[1..] == SA.AddressBytes(a, port)[..k - 1];
      SA.CutAddress(a, port, k - 1, end);
    }
  }

  /** What is left of a target that could not be written whole is refused. */
  lemma PartIsRefused(ip: SA.IpText, streamType: Byte, target: SH.Target, room: nat, end: Error)
    requires SA.Canonical(ip)
    requires
      || |TargetOutput(ip, streamType, target)| > room
      || (streamType != STREAM_FORWARD && Classify(ip, target.host).TooLong?)
    ensures ParseTarget(ip, FirstBytes(TargetOutput(ip, streamType, target), room), end).Failed?
  {
    var out := TargetOutput(ip, streamType, target);
    if streamType == STREAM_FORWARD {
      assert out == [STREAM_FORWARD];
    } else {
      match Classify(ip, target.host)
      case Fits(a) => CutTarget(ip, streamType, a, Port16(target.port), room, end);
      case TooLong =>
        var k := |FirstBytes(out, room)|;
        CutTarget(ip, streamType, SA.Domain([]), 0, k, end);
        assert FirstBytes(out, room) == ([streamType] + SA.AddressBytes(SA.Domain([]), 0))[..k];
    }
  }

  lemma OutputSize(ip: SA.IpText, streamType: Byte, target: SH.Target)
    requires SA.Canonical(ip)
    ensures |TargetOutput(ip, streamType, target)| <= 260
  {
  }

  /** A target written to a stream with room for `room` bytes, and read by the other side, which finds
      `tail` after it. If the write succeeded, the stream type comes back with the host in canonical
      text and the low 16 bits of the port, a forward without a target, and `tail` is left; if it
      failed, what went out is not taken for a target. A host that fits and enough room are all it
      takes to succeed. */
  method WriteThenRead(streamType: Byte, target: SH.Target, ip: SA.IpText, room: nat, tail: Bytes, end: Error)
      returns (written: WriteResult, res: Result<(Byte, SH.Target)>, left: Bytes)
    requires SA.Canonical(ip)
    ensures room >= 260 && (|target.host| <= 255 || !ip.parse(target.host).NotIp?) ==> written == Written
    ensures written == Written ==>
      && res == Ok((streamType, if streamType == 3 then SH.Target([], 0)
                                else SH.Target(SA.CanonicalHost(ip, target.host), target.port % 0x1_0000)))
      && left == tail
    ensures written != Written && tail == [] ==> res.Err?
  {
    var w := new Writer(room);
    OutputSize(ip, streamType, target);
    written := WriteTarget(w, streamType, target, ip);
    assert w.out == FirstBytes(TargetOutput(ip, streamType, target), room);
    var r := new Reader(w.out + tail, end);
    if written == Written {
      OutputComesBack(ip, streamType, target, tail, end);
    } else {
      PartIsRefused(ip, streamType, target, room, end);
      assert tail == [] ==> w.out + tail == w.out;
    }
    res := ReadTarget(r, ip);
    left := r.rest;
  }

  lemma AddressIsTarget(ip: SA.IpText, a: SA.Address)
    requires SA.Canonical(ip) && SA.WellFormed(a)
    ensures var host := SA.HostOf(ip, a);
      (|host| <= 255 || !ip.parse(host).NotIp?) && (!a.Domain? ==> SA.CanonicalHost(ip, host) == host)
  {
    AcceptedHostIsCanonical(ip, a);
  }

  /** What became of a CONNECT request that the handshake took for `h`: whatever it accepted arrived, with
      the same port, and the same host unless the client sent an IP literal as a name, which arrived in
      canonical text; and what followed was left alone. */
  ghost predicate Relayed(ip: SA.IpText, h: SH.Handshake, streamType: Byte, tail: Bytes,
                          asked: Result<SH.Target>, res: Result<(Byte, SH.Target)>, left: Bytes)
  {
    match h
    case Refused(e) => asked == Err(e) && res == Err(e)
    case Accepted(a, port, _) =>
      && asked == Ok(SH.Target(SA.HostOf(ip, a), port))
      && res == Ok((streamType, SH.Target(SA.CanonicalHost(ip, SA.HostOf(ip, a)), port))) && left == tail
      && (!a.Domain? ==> res.value.1 == asked.value)
  }

  /** The part after the handshake. */
  method RelayTarget(asked: SH.Target, ghost h: SH.Handshake, ip: SA.IpText, streamType: Byte, tail: Bytes, end: Error)
      returns (res: Result<(Byte, SH.Target)>, left: Bytes)
    requires SA.Canonical(ip) && streamType != STREAM_FORWARD
    requires h.Accepted? && SA.WellFormed(h.a) && h.port < 0x1_0000 && asked == SH.Target(SA.HostOf(ip, h.a), h.port)
    ensures Relayed(ip, h, streamType, tail, Ok(asked), res, left)
  {
    AddressIsTarget(ip, h.a);
    assert asked.port % 0x1_0000 == asked.port;
    var written;
    written, res, left := WriteThenRead(streamType, asked, ip, 260, tail, end);
  }

  /** The whole way of a CONNECT request: a SOCKS client's bytes through HandshakeServer, the target it
      gave through WriteTarget, and what was written through ReadTarget on the other side. */
  method RelayRequest(client: Reader, reply: Writer, ip: SA.IpText, streamType: Byte, tail: Bytes, end: Error)
      returns (asked: Result<SH.Target>, res: Result<(Byte, SH.Target)>, left: Bytes)
    requires SA.Canonical(ip) && streamType != STREAM_FORWARD
    modifies client, reply
    ensures var h := SH.Shake(old(client.rest), client.end, old(reply.room) >= 2);
      Relayed(ip, h, streamType, tail, asked, res, left)
  {
    ghost var h := SH.Shake(client.rest, client.end, reply.room >= 2);
    ghost var s, end', canReply := client.rest, client.end, reply.room >= 2;
    asked := SH.HandshakeServer(client, reply, ip);
    if asked.Err? {
      return asked, Err(asked.error), [];
    }
    assert SA.WellFormed(h.a) && h.port < 0x1_0000 by {
      var methods, rsv := SH.AcceptedBegins(s, end', canReply);
    }
    res, left := RelayTarget(asked.value, h, ip, streamType, tail, end);
  }
}
