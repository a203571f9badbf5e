/** Frames from client to server: what Connect, SendData and CloseConn build, and what handleTunnel
    makes of a request body. */
module TunnelFrame {
  import opened Bytes
  import opened Cipher
  import CR = ConnectRequest

  const VERSION: nat := 1
  const MSG_CONNECT: nat := 1
  const MSG_DATA: nat := 2
  const MSG_CLOSE: nat := 3
  const STREAM_HEADER_SIZE: nat := 10

  type ConnId = id: int | 0 <= id < 0x1_0000_0000

  function Header(msgType: Byte, id: ConnId, payloadLen: nat): (h: Bytes)
    ensures |h| == STREAM_HEADER_SIZE
  {
    [VERSION, msgType] + PutU32(id) + PutU32(payloadLen)
  }

  function ConnectPlaintext(id: ConnId, network: Bytes, address: Bytes): Bytes {
    var payload := CR.Encoded(network, address);
    Header(MSG_CONNECT, id, |payload|) + payload
  }

  function DataPlaintext(id: ConnId, data: Bytes): Bytes {
    Header(MSG_DATA, id, |data|) + data
  }

  function ClosePlaintext(id: ConnId): Bytes {
    Header(MSG_CLOSE, id, 0)
  }

  /** What the server does with a request body. */
  datatype Action =
    | Connect(id: ConnId, network: Bytes, address: Bytes)  // dial and register
    | Forward(id: ConnId, data: Bytes)                     // write to that connection's remote, if it has one
    | Shut(id: ConnId)                                     // close that connection
    | Nothing                                              // empty body or unknown type: status ok
    | BadRequest
    | Panic

  function HandleTunnel(a: Aead, body: Bytes): Action {
    if body == [] then Nothing
    else
      match Decrypt(a, body)
      case None => BadRequest
      case Some(d) => Dispatch(d)
  }

  function Dispatch(d: Bytes): Action {
    if |d| < STREAM_HEADER_SIZE then BadRequest
    else
      var msgType := d[1];
      var id: ConnId := U32(d[2..6]);
      var payloadLen := U32(d[6..10]);
      var payload := d[10..];
      if msgType == MSG_CONNECT then
        if payloadLen != |payload| then BadRequest
        else
          match CR.DecodeConnectRequest(payload)
          case Request(network, address) => Connect(id, network, address)
          case SliceOutOfRange => Panic
          case _ => BadRequest
      else if msgType == MSG_DATA then Forward(id, payload)
      else if msgType == MSG_CLOSE then Shut(id)
      else Nothing
  }

  lemma HeaderParts(msgType: Byte, id: ConnId, n: nat, payload: Bytes)
    ensures var d := Header(msgType, id, n) + payload;
      && |d| == 10 + |payload| && d[0] == VERSION && d[1] == msgType
      && U32(d[2..6]) == id && U32(d[6..10]) == n % 0x1_0000_0000 && d[10..] == payload
  {
    var d := Header(msgType, id, n) + payload;
    assert d[2..6] == PutU32(id) && d[6..10] == PutU32(n) && d[10..] == payload;
  }

  lemma Unsealed(a: Aead, nonce: Nonce, d: Bytes)
    requires Sound(a)
    ensures HandleTunnel(a, Encrypt(a, nonce, d)) == Dispatch(d)
  {
  }

  lemma RequestComesBackIff(network: Bytes, address: Bytes)
    ensures CR.DecodeConnectRequest(CR.Encoded(network, address)) == CR.Request(network, address)
      <==> |network| <= CR.MAX_NETWORK && |address| <= CR.MAX_ADDRESS
    ensures |CR.Encoded(network, address)| == 4 + |network| + |address|
  {
    CR.RoundTripIff(network, address, []);
    assert CR.Encoded(network, address) + [] == CR.Encoded(network, address);
  }

  /** What the server makes of a connect frame around any payload. */
  lemma ConnectDispatched(id: ConnId, payload: Bytes)
    ensures Dispatch(Header(MSG_CONNECT, id, |payload|) + payload) ==
      if |payload| >= 0x1_0000_0000 then BadRequest
      else match CR.DecodeConnectRequest(payload)
        case Request(network, address) => Connect(id, network, address)
        case SliceOutOfRange => Panic
        case _ => BadRequest
  {
    HeaderParts(MSG_CONNECT, id, |payload|, payload);
  }

  /** A connect frame reaches the dialer as it was meant, exactly when both texts fit. */
  lemma ConnectArrivesIff(a: Aead, nonce: Nonce, id: ConnId, network: Bytes, address: Bytes)
    requires Sound(a)
    ensures HandleTunnel(a, Encrypt(a, nonce, ConnectPlaintext(id, network, address))) == Connect(id, network, address)
      <==> |network| <= CR.MAX_NETWORK && |address| <= CR.MAX_ADDRESS
  {
    Unsealed(a, nonce, ConnectPlaintext(id, network, address));
    ConnectDispatched(id, CR.Encoded(network, address));
    RequestComesBackIff(network, address);
  }

  /** A data frame arrives whole, as data for its own connection, whatever its size. */
  lemma DataArrives(a: Aead, nonce: Nonce, id: ConnId, data: Bytes)
    requires Sound(a)
    ensures HandleTunnel(a, Encrypt(a, nonce, DataPlaintext(id, data))) == Forward(id, data)
  {
    Unsealed(a, nonce, DataPlaintext(id, data));
    HeaderParts(MSG_DATA, id, |data|, data);
  }

  lemma CloseArrives(a: Aead, nonce: Nonce, id: ConnId)
    requires Sound(a)
    ensures HandleTunnel(a, Encrypt(a, nonce, ClosePlaintext(id))) == Shut(id)
  {
  }

  /** What the server does with every other body: it ignores an empty one and an unknown type, and
      refuses one that does not decrypt or is shorter than a header. */
  lemma OtherBodies(a: Aead, nonce: Nonce, d: Bytes, body: Bytes)
    requires Sound(a)
    ensures HandleTunnel(a, []) == Nothing
    ensures body != [] && Decrypt(a, body).None? ==> HandleTunnel(a, body) == BadRequest
    ensures |d| < 10 ==> HandleTunnel(a, Encrypt(a, nonce, d)) == BadRequest
    ensures |d| >= 10 && d[1] !in {1, 2, 3} ==> HandleTunnel(a, Encrypt(a, nonce, d)) == Nothing
  {
  }

  // ----- connection ids -----

  const ID_CYCLE: nat := 0xffff_ffff

  /** The k-th id handed out, from 0. */
  function IdAt(k: nat): ConnId {
    1 + k % ID_CYCLE
  }

  class IdGenerator {
    var connIDGen: ConnId
    ghost var issued: nat

    ghost predicate Valid()
      reads this
    {
      connIDGen == IdAt(issued)
    }

    constructor ()
      ensures Valid() && issued == 0
    {
      connIDGen, issued := 1, 0;
    }

    method NextConnID() returns (id: ConnId)
      requires Valid()
      modifies this
      ensures Valid() && issued == old(issued) + 1 && id == IdAt(old(issued))
    {
      id := connIDGen;
      NextId(issued);
      connIDGen := (connIDGen as int + 1) % 0x1_0000_0000;
      if connIDGen == 0 {
        connIDGen := 1;
      }
      issued := issued + 1;
    }
  }

  lemma NextId(k: nat)
    ensures IdAt(k + 1) == if IdAt(k) == ID_CYCLE then 1 else IdAt(k) + 1
  {
  }

  /** Ids are never 0, and two of them are equal only a whole number of cycles apart. */
  lemma IdsCollideIff(i: nat, j: nat)
    requires i <= j
    ensures IdAt(i) != 0
    ensures IdAt(i) == IdAt(j) <==> (j - i) % ID_CYCLE == 0
    ensures i < j < i + ID_CYCLE ==> IdAt(i) != IdAt(j)
  {
  }

  /** The ids of the first `n` calls. */
  method IssueIds(n: nat) returns (ids: seq<ConnId>)
    ensures |ids| == n && forall k :: 0 <= k < n ==> ids[k] == IdAt(k)
  {
    var g := new IdGenerator();
    ids := [];
    for k := 0 to n
      invariant fresh(g) && g.Valid() && g.issued == k
      invariant |ids| == k && forall j :: 0 <= j < k ==> ids[j] == IdAt(j)
    {
      var id := g.NextConnID();
      ids := ids + [id];
    }
  }
}
