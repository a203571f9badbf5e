/** The server side of the SOCKS5 handshake, without authentication and for CONNECT only. */
module SocksHandshake {
  import opened Bytes
  import opened ByteStreams
  import SA = SocksAddress

  const VERSION5: nat := 5
  const CMD_CONNECT: nat := 1

  /** A dial target; its network is always "tcp". */
  datatype Target = Target(host: Bytes, port: int)

  // ----- the format, sections 3 and 4 of RFC 1928 -----

  function Greeting(methods: Bytes): Bytes
    requires |methods| <= 255
  {
    [5, |methods|] + methods
  }

  function Request(rsv: Byte, a: SA.Address, port: nat): Bytes
    requires SA.WellFormed(a)
  {
    [5, 1, rsv] + SA.AddressBytes(a, port)
  }

  // ----- reading it -----

  datatype Handshake = Accepted(a: SA.Address, port: nat, rest: Bytes) | Refused(error: Error)

  /** What the server makes of the client's bytes; `canReply` says whether the client takes the
      reply to its greeting. */
  function Shake(s: Bytes, end: Error, canReply: bool): Handshake {
    match SA.Take(s, 2, end)
    case Short(e) => Refused(e)
    case Taken(hdr, s1) =>
      if hdr[0] != VERSION5 then Refused(ErrUnsupportedVersion)
      else
        match SA.Take(s1, hdr[1], end)
        case Short(e) => Refused(e)
        case Taken(_, s2) => if canReply then ShakeRequest(s2, end) else Refused(ErrWrite)
  }

  function ShakeRequest(s: Bytes, end: Error): Handshake {
    match SA.Take(s, 2, end)
    case Short(e) => Refused(e)
    case Taken(hdr, s1) =>
      if hdr[0] != VERSION5 then Refused(ErrUnsupportedVersion)
      else if hdr[1] != CMD_CONNECT then Refused(ErrUnsupportedCommand)
      else
        match SA.Take(s1, 1, end)
        case Short(e) => Refused(e)
        case Taken(_, s2) =>
          match SA.ParseAddress(s2, end)
          case Failed(e) => Refused(e)
          case Found(a, port, rest) => Accepted(a, port, rest)
  }

  /** The greeting is all there; only then does the server reply. */
  predicate HasGreeting(s: Bytes) {
    |s| >= 2 && s[0] == VERSION5 && |s| >= 2 + s[1] as int
  }

  method ReadRequest(r: Reader, ip: SA.IpText) returns (res: Result<Target>)
    modifies r
    ensures match ShakeRequest(old(r.rest), r.end)
            case Refused(e) => res == Err(e)
            case Accepted(a, port, rest) => res == Ok(Target(SA.HostOf(ip, a), port)) && r.rest == rest
  {
    var hdr := r.ReadFull(2);
    if hdr.Err? {
      return Err(hdr.error);
    }
    if hdr.value[0] != VERSION5 {
      return Err(ErrUnsupportedVersion);
    }
    if hdr.value[1] != CMD_CONNECT {
      return Err(ErrUnsupportedCommand);
    }
    var rsv := r.ReadFull(1);
    if rsv.Err? {
      return Err(rsv.error);
    }
    var addr := SA.ReadFrom(r);
    if addr.Err? {
      return Err(addr.error);
    }
    res := Ok(Target(SA.HostOf(ip, addr.value.0), addr.value.1));
  }

  method HandshakeServer(r: Reader, w: Writer, ip: SA.IpText) returns (res: Result<Target>)
    modifies r, w
    ensures match Shake(old(r.rest), r.end, old(w.room) >= 2)
            case Refused(e) => res == Err(e)
            case Accepted(a, port, rest) => res == Ok(Target(SA.HostOf(ip, a), port)) && r.rest == rest
    ensures w.out == old(w.out) + if HasGreeting(old(r.rest)) then FirstBytes([VERSION5, 0], old(w.room)) else []
  {
    var hdr := r.ReadFull(2);
    if hdr.Err? {
      return Err(hdr.error);
    }
    if hdr.value[0] != VERSION5 {
      return Err(ErrUnsupportedVersion);
    }
    var methods := r.ReadFull(hdr.value[1]);
    if methods.Err? {
      return Err(methods.error);
    }
    var reply: Bytes := [VERSION5, 0];
    var n, ok := w.Write(reply);
    assert reply[..n] == FirstBytes(reply, old(w.room));
    if !ok {
      return Err(ErrWrite);
    }
    res := ReadRequest(r, ip);
  }

  // ----- exactly what is accepted -----

  ghost predicate Begins(s: Bytes, methods: Bytes, rsv: Byte, a: SA.Address, port: nat, rest: Bytes) {
    && |methods| <= 255 && SA.WellFormed(a) && port < 0x1_0000
    && s == Greeting(methods) + (Request(rsv, a, port) + rest)
  }

  /** After its first three bytes a request is an address. */
  lemma RequestHead(rsv: Byte, tail: Bytes, end: Error)
    ensures ShakeRequest([VERSION5, CMD_CONNECT, rsv] + tail, end) ==
      match SA.ParseAddress(tail, end)
      case Failed(e) => Refused(e)
      case Found(a, port, rest) => Accepted(a, port, rest)
  {
    assert [VERSION5, CMD_CONNECT, rsv] + tail == [VERSION5, CMD_CONNECT] + ([rsv] + tail);
    SA.TakeFront([VERSION5, CMD_CONNECT], [rsv] + tail, end);
    SA.TakeFront([rsv], tail, end);
  }

  lemma RequestAccepted(rsv: Byte, a: SA.Address, port: nat, rest: Bytes, end: Error)
    requires SA.WellFormed(a) && port < 0x1_0000
    ensures ShakeRequest(Request(rsv, a, port) + rest, end) == Accepted(a, port, rest)
  {
    Assoc([VERSION5, CMD_CONNECT, rsv], SA.AddressBytes(a, port), rest);
    RequestHead(rsv, SA.AddressBytes(a, port) + rest, end);
    SA.AddressComesBack(a, port, rest, end);
  }

  lemma GreetingAccepted(methods: Bytes, tail: Bytes, end: Error)
    requires |methods| <= 255
    ensures Shake(Greeting(methods) + tail, end, true) == ShakeRequest(tail, end)
  {
  }

  lemma RequestSound(s: Bytes, end: Error) returns (rsv: Byte)
    requires ShakeRequest(s, end).Accepted?
    ensures var Accepted(a, port, rest) := ShakeRequest(s, end);
      SA.WellFormed(a) && port < 0x1_0000 && s == Request(rsv, a, port) + rest
  {
    var h := ShakeRequest(s, end);
    rsv := s[2];
    var tail := s[2..][1..];
    SA.ParseAddressSound(tail, end);
    assert s == [VERSION5, CMD_CONNECT, rsv] + tail;
    Assoc([VERSION5, CMD_CONNECT, rsv], SA.AddressBytes(h.a, h.port), h.rest);
  }

  lemma GreetingSound(s: Bytes, end: Error, canReply: bool) returns (methods: Bytes, tail: Bytes)
    requires Shake(s, end, canReply).Accepted?
    ensures canReply && |methods| <= 255 && s == Greeting(methods) + tail
    ensures Shake(s, end, canReply) == ShakeRequest(tail, end)
  {
    var s1 := s[2..];
    methods, tail := s1[..s[1]], s1[s[1]..];
    assert s1 == methods + tail;
    assert s == [VERSION5, s[1]] + s1;
    Assoc([VERSION5, s[1]], methods, tail);
  }

  lemma AcceptedBegins(s: Bytes, end: Error, canReply: bool) returns (methods: Bytes, rsv: Byte)
    requires Shake(s, end, canReply).Accepted?
    ensures var h := Shake(s, end, canReply); canReply && Begins(s, methods, rsv, h.a, h.port, h.rest)
  {
    var tail;
    methods, tail := GreetingSound(s, end, canReply);
    rsv := RequestSound(tail, end);
  }

  /** The handshake accepts exactly a greeting followed by a CONNECT request, whatever methods are
      offered and whatever the reserved byte is, and takes not one byte more; its reply must go out. */
  lemma AcceptedIff(s: Bytes, end: Error, canReply: bool, a: SA.Address, port: nat, rest: Bytes)
    ensures Shake(s, end, canReply) == Accepted(a, port, rest) <==>
      canReply && exists methods, rsv :: Begins(s, methods, rsv, a, port, rest)
  {
    if Shake(s, end, canReply) == Accepted(a, port, rest) {
      var methods, rsv := AcceptedBegins(s, end, canReply);
    }
    if canReply && exists methods, rsv :: Begins(s, methods, rsv, a, port, rest) {
      var methods, rsv :| Begins(s, methods, rsv, a, port, rest);
      GreetingAccepted(methods, Request(rsv, a, port) + rest, end);
      RequestAccepted(rsv, a, port, rest, end);
    }
  }

  // ----- what is refused -----

  /** What is left of a conversation after its greeting. */
  function AfterGreeting(s: Bytes): Bytes
    requires HasGreeting(s)
  {
    s[2 + s[1] as int..]
  }

  /** Exactly which version, command and address type is refused, and with which error. */
  lemma RefusedFor(s: Bytes, end: Error, canReply: bool)
    ensures |s| >= 2 && s[0] != 5 ==> Shake(s, end, canReply) == Refused(ErrUnsupportedVersion)
    ensures HasGreeting(s) && !canReply ==> Shake(s, end, canReply) == Refused(ErrWrite)
    ensures HasGreeting(s) && canReply ==>
      var q := AfterGreeting(s);
      && (|q| >= 2 && q[0] != 5 ==> Shake(s, end, canReply) == Refused(ErrUnsupportedVersion))
      && (|q| >= 2 && q[0] == 5 && q[1] != 1 ==> Shake(s, end, canReply) == Refused(ErrUnsupportedCommand))
      && (|q| >= 4 && q[0] == 5 && q[1] == 1 && q[3] !in {1, 3, 4} ==>
            Shake(s, end, canReply) == Refused(ErrUnsupportedAddr))
  {
    if HasGreeting(s) && canReply {
      assert Shake(s, end, canReply) == ShakeRequest(AfterGreeting(s), end);
    }
  }

  lemma CutHead(s: Bytes, end: Error)
    requires |s| <= 2 && (|s| == 2 ==> s == [VERSION5, CMD_CONNECT])
    ensures ShakeRequest(s, end) == Refused(SA.CutError(|s| != 1, end))
  {
  }

  lemma CutRequest(rsv: Byte, a: SA.Address, port: nat, k: nat, end: Error)
    requires SA.WellFormed(a) && k < |Request(rsv, a, port)|
    ensures ShakeRequest(Request(rsv, a, port)[..k], end) ==
      Refused(SA.CutError(k in {0, 2} || (k >= 3 && SA.BetweenFields(a, k - 3)), end))
  {
    var head: Bytes := [VERSION5, CMD_CONNECT, rsv];
    TakeAcross(head, SA.AddressBytes(a, port), k);
    if k < 3 {
      CutHead(head[..k], end);
    } else {
      RequestHead(rsv, SA.AddressBytes(a, port)[..k - 3], end);
      SA.CutAddress(a, port, k - 3, end);
    }
  }

  /** The conversation cut after `k` bytes ends between two of the fields that the server reads. */
  predicate BetweenReads(methods: Bytes, a: SA.Address, k: nat) {
    var request := k - 2 - |methods|;
    k in {0, 2} || request in {0, 2} || (request >= 3 && SA.BetweenFields(a, request - 3))
  }

  lemma CutGreeting(methods: Bytes, k: nat, end: Error)
    requires |methods| <= 255 && k < |Greeting(methods)|
    ensures Shake(Greeting(methods)[..k], end, true) == Refused(SA.CutError(k in {0, 2}, end))
  {
    var s := Greeting(methods)[..k];
    if k >= 2 {
      assert s[..2] == [VERSION5, |methods|] && |s[2..]| == k - 2;
    }
  }

  /** A client that stops anywhere in an acceptable conversation is refused with the error of the cut. */
  lemma CutShake(methods: Bytes, rsv: Byte, a: SA.Address, port: nat, k: nat, end: Error)
    requires |methods| <= 255 && SA.WellFormed(a) && k < |Greeting(methods) + Request(rsv, a, port)|
    ensures Shake((Greeting(methods) + Request(rsv, a, port))[..k], end, true) ==
      Refused(SA.CutError(BetweenReads(methods, a, k), end))
  {
    var g, q := Greeting(methods), Request(rsv, a, port);
    TakeAcross(g, q, k);
    if k < |g| {
      CutGreeting(methods, k, end);
    } else {
      GreetingAccepted(methods, q[..k - |g|], end);
      CutRequest(rsv, a, port, k - |g|, end);
    }
  }
}
