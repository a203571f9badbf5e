/** The whole upload path of one connection: the writes that pumpWrite dequeues, the frames SendData
    makes of its batches, and what the server's handler does with them, which depends on whether the
    connection is still registered and on what its remote takes. The handler answers every data frame
    with status ok, and SendData takes any answer for success. */
module TunnelUpload {
  import opened Bytes
  import opened Cipher
  import opened Wrappers
  import TF = TunnelFrame
  import TW = TunnelWrite

  // ----- the server -----

  /** The server's side of the connection: whether it is registered, and what its remote was given. */
  datatype Server = Server(registered: bool, remote: Bytes)

  const FRESH_SERVER := Server(true, [])

  /** What befalls the server around one request body: the connection may be gone by then (the remote
      ended, or the connection was closed), and `remote.Write` takes some bytes and may fail. */
  datatype Chance = Chance(gone: bool, taken: nat, fails: bool)

  /** `remote.Write(data)` returns an error, as it must when it does not take all. */
  predicate WriteFails(c: Chance, data: Bytes) {
    c.fails || c.taken < |data|
  }

  /** handleTunnel on one request body: data for a connection that is not registered is dropped, and
      a failed write unregisters the connection. */
  function Serve(a: Aead, id: TF.ConnId, s: Server, body: Bytes, c: Chance): Server {
    var s := s.(registered := s.registered && !c.gone);
    match TF.HandleTunnel(a, body)
    case Forward(to, data) =>
      if to != id || !s.registered then s
      else Server(!WriteFails(c, data), s.remote + FirstBytes(data, c.taken))
    case Shut(to) => if to == id then s.(registered := false) else s
    case _ => s
  }

  /** The request bodies of some sends, each under its own nonce, handled in order. */
  function ServeAll(a: Aead, id: TF.ConnId, sends: seq<TW.Send>, nonces: seq<Nonce>, cs: seq<Chance>): Server
    requires |nonces| == |cs| == |sends|
  {
    if sends == [] then FRESH_SERVER
    else
      var n := |sends| - 1;
      var body := Encrypt(a, nonces[n], TF.DataPlaintext(id, sends[n].data));
      Serve(a, id, ServeAll(a, id, sends[..n], nonces[..n], cs[..n]), body, cs[n])
  }

  // ----- which sends are served -----

  /** The connection is still registered after all these sends. */
  predicate StaysOpen(sends: seq<TW.Send>, cs: seq<Chance>)
    requires |cs| == |sends|
  {
    forall i :: 0 <= i < |sends| ==> !cs[i].gone && !WriteFails(cs[i], sends[i].data)
  }

  /** How many sends, from the first, were handled while the connection was registered and taken
      whole by the remote. */
  function Served(sends: seq<TW.Send>, cs: seq<Chance>): (k: nat)
    requires |cs| == |sends|
    ensures k <= |sends|
  {
    if sends == [] then 0
    else
      var n := |sends| - 1;
      if StaysOpen(sends[..n], cs[..n]) && !cs[n].gone && |sends[n].data| <= cs[n].taken then n + 1
      else Served(sends[..n], cs[..n])
  }

  /** What the remote took of the first send that was not served. */
  function Part(sends: seq<TW.Send>, cs: seq<Chance>): Bytes
    requires |cs| == |sends|
  {
    if sends == [] then []
    else
      var n := |sends| - 1;
      if !StaysOpen(sends[..n], cs[..n]) then Part(sends[..n], cs[..n])
      else if cs[n].gone || |sends[n].data| <= cs[n].taken then []
      else FirstBytes(sends[n].data, cs[n].taken)
  }

  lemma OpenMeansServed(sends: seq<TW.Send>, cs: seq<Chance>)
    requires |cs| == |sends| && StaysOpen(sends, cs)
    ensures Served(sends, cs) == |sends| && Part(sends, cs) == []
  {
  }

  lemma ServeBatch(a: Aead, id: TF.ConnId, s: Server, nonce: Nonce, data: Bytes, c: Chance)
    requires Sound(a)
    ensures Serve(a, id, s, Encrypt(a, nonce, TF.DataPlaintext(id, data)), c) ==
      if s.registered && !c.gone then Server(!WriteFails(c, data), s.remote + FirstBytes(data, c.taken))
      else Server(false, s.remote)
  {
    TF.DataArrives(a, nonce, id, data);
  }

  /** Frames of other connections, whatever they are, do not touch this one; its own close frame
      unregisters it. */
  lemma OwnFramesOnly(a: Aead, id: TF.ConnId, other: TF.ConnId, s: Server, nonce: Nonce, data: Bytes, c: Chance)
    requires Sound(a) && !c.gone
    ensures other != id ==>
      && Serve(a, id, s, Encrypt(a, nonce, TF.DataPlaintext(other, data)), c) == s
      && Serve(a, id, s, Encrypt(a, nonce, TF.ClosePlaintext(other)), c) == s
    ensures Serve(a, id, s, Encrypt(a, nonce, TF.ClosePlaintext(id)), c) == Server(false, s.remote)
  {
    TF.DataArrives(a, nonce, other, data);
    TF.CloseArrives(a, nonce, other);
    TF.CloseArrives(a, nonce, id);
  }

  /** What the remote was given by these sends. */
  function Given(sends: seq<TW.Send>, cs: seq<Chance>): Bytes
    requires |cs| == |sends|
  {
    Concat(TW.DataOf(sends[..Served(sends, cs)])) + Part(sends, cs)
  }

  lemma GivenOpen(sends: seq<TW.Send>, cs: seq<Chance>)
    requires |cs| == |sends| > 0
    requires var n := |sends| - 1; StaysOpen(sends[..n], cs[..n])
    ensures var n := |sends| - 1; var before := Given(sends[..n], cs[..n]);
      Given(sends, cs) == if cs[n].gone then before else before + FirstBytes(sends[n].data, cs[n].taken)
  {
    var n := |sends| - 1;
    OpenMeansServed(sends[..n], cs[..n]);
    assert sends[..n][..n] == sends[..n] && sends[..n + 1] == sends;
    assert Concat(TW.DataOf(sends[..n])) + [] == Concat(TW.DataOf(sends[..n]));
    assert Concat(TW.DataOf(sends)) + [] == Concat(TW.DataOf(sends));
    ConcatSnoc(TW.DataOf(sends[..n]), sends[n].data);
  }

  lemma GivenClosed(sends: seq<TW.Send>, cs: seq<Chance>)
    requires |cs| == |sends| > 0
    requires var n := |sends| - 1; !StaysOpen(sends[..n], cs[..n])
    ensures var n := |sends| - 1; Given(sends, cs) == Given(sends[..n], cs[..n])
  {
    assert sends[..|sends| - 1][..Served(sends, cs)] == sends[..Served(sends, cs)];
  }

  lemma OneMoreOpen(sends: seq<TW.Send>, cs: seq<Chance>)
    requires |cs| == |sends| > 0
    ensures var n := |sends| - 1;
      StaysOpen(sends, cs) <==> StaysOpen(sends[..n], cs[..n]) && !cs[n].gone && !WriteFails(cs[n], sends[n].data)
  {
    var n := |sends| - 1;
    assert sends == sends[..n] + [sends[n]] && cs == cs[..n] + [cs[n]];
  }

  /** The remote was given the served batches in order, then possibly part of the next, and nothing
      of any other. */
  lemma {:induction false} RemoteGot(a: Aead, id: TF.ConnId, sends: seq<TW.Send>, nonces: seq<Nonce>, cs: seq<Chance>)
    requires Sound(a) && |nonces| == |cs| == |sends|
    ensures ServeAll(a, id, sends, nonces, cs) == Server(StaysOpen(sends, cs), Given(sends, cs))
  {
    if sends == [] {
    } else {
      var n := |sends| - 1;
      RemoteGot(a, id, sends[..n], nonces[..n], cs[..n]);
      var s := Server(StaysOpen(sends[..n], cs[..n]), Given(sends[..n], cs[..n]));
      ServeBatch(a, id, s, nonces[n], sends[n].data, cs[n]);
      OneMoreOpen(sends, cs);
      if StaysOpen(sends[..n], cs[..n]) {
        GivenOpen(sends, cs);
      } else {
        GivenClosed(sends, cs);
      }
    }
  }

  // ----- what reaches the remote -----

  /** Every send that succeeded is among the first `k`. */
  predicate Reached(sends: seq<TW.Send>, k: nat) {
    k <= |sends| && forall i :: k <= i < |sends| ==> !sends[i].ok
  }

  /** How many writes the first `k` sends held. */
  function LastOf(sends: seq<TW.Send>, k: nat): nat
    requires k <= |sends|
  {
    if k == 0 then 0 else sends[k - 1].to
  }

  /** Every write acknowledged without an error is among the first `to`. */
  predicate AckedBefore(acked: seq<TW.Ack>, to: nat) {
    forall i :: 0 <= i < |acked| && acked[i].ok ==> i < to
  }

  lemma NothingLeft(sends: seq<TW.Send>, cs: seq<Chance>)
    requires |cs| == |sends| && Served(sends, cs) == |sends|
    ensures Part(sends, cs) == []
  {
  }

  lemma {:induction false} PartIsShort(sends: seq<TW.Send>, cs: seq<Chance>)
    requires |cs| == |sends| && Served(sends, cs) < |sends|
    ensures var data := sends[Served(sends, cs)].data;
      Part(sends, cs) <= data && (data != [] ==> |Part(sends, cs)| < |data|)
  {
    var n := |sends| - 1;
    if StaysOpen(sends[..n], cs[..n]) {
      OpenMeansServed(sends[..n], cs[..n]);
    } else if Served(sends, cs) < n {
      PartIsShort(sends[..n], cs[..n]);
    } else {
      NothingLeft(sends[..n], cs[..n]);
    }
  }

  /** The first sends have a ledger of their own. */
  lemma {:induction false} LedgerBefore(sends: seq<TW.Send>, dequeued: seq<Bytes>, acked: seq<TW.Ack>, k: nat)
    requires TW.Ledger(sends, dequeued, acked) && k <= |sends|
    ensures LastOf(sends, k) <= |acked| && (k == |sends| ==> LastOf(sends, k) == |acked|)
    ensures TW.Ledger(sends[..k], dequeued, acked[..LastOf(sends, k)])
  {
    if k == |sends| {
      assert sends[..k] == sends && acked[..|acked|] == acked;
    } else {
      var n := |sends| - 1;
      var from := sends[n].from;
      LedgerBefore(sends[..n], dequeued, acked[..from], k);
      assert sends[..n][..k] == sends[..k];
      assert acked[..from][..LastOf(sends, k)] == acked[..LastOf(sends, k)];
    }
  }

  lemma LedgerLast(sends: seq<TW.Send>, dequeued: seq<Bytes>, acked: seq<TW.Ack>)
    requires TW.Ledger(sends, dequeued, acked) && sends != []
    ensures var b := sends[|sends| - 1];
      && LastOf(sends, |sends| - 1) == b.from < b.to == |acked| && b.data != []
      && forall i :: b.from <= i < b.to ==> acked[i].ok == b.ok
  {
  }

  /** Send `j` begins where the ones before it end and gives its writes its own outcome. */
  lemma LedgerAt(sends: seq<TW.Send>, dequeued: seq<Bytes>, acked: seq<TW.Ack>, j: nat)
    requires TW.Ledger(sends, dequeued, acked) && j < |sends|
    ensures LastOf(sends, j) == sends[j].from < sends[j].to <= |acked| && sends[j].data != []
    ensures forall i :: sends[j].from <= i < sends[j].to ==> acked[i].ok == sends[j].ok
  {
    var to := LastOf(sends, j + 1);
    LedgerBefore(sends, dequeued, acked, j + 1);
    LedgerLast(sends[..j + 1], dequeued, acked[..to]);
    assert sends[..j + 1][..j] == sends[..j];
  }

  lemma {:induction false} LastOfGrows(sends: seq<TW.Send>, dequeued: seq<Bytes>, acked: seq<TW.Ack>, k: nat, j: nat)
    requires TW.Ledger(sends, dequeued, acked) && k <= j <= |sends|
    ensures LastOf(sends, k) <= LastOf(sends, j)
  {
    if k == j {
    } else {
      LastOfGrows(sends, dequeued, acked, k, j - 1);
      LedgerAt(sends, dequeued, acked, j - 1);
    }
  }

  lemma {:induction false} AcknowledgedReached(sends: seq<TW.Send>, dequeued: seq<Bytes>, acked: seq<TW.Ack>, k: nat)
    requires TW.Ledger(sends, dequeued, acked) && Reached(sends, k)
    ensures AckedBefore(acked, LastOf(sends, k))
  {
    if k == |sends| {
    } else {
      var n := |sends| - 1;
      AcknowledgedReached(sends[..n], dequeued, acked[..sends[n].from], k);
    }
  }

  lemma AckedBeforeIff(sends: seq<TW.Send>, dequeued: seq<Bytes>, acked: seq<TW.Ack>, k: nat)
    requires TW.Ledger(sends, dequeued, acked) && k <= |sends|
    ensures AckedBefore(acked, LastOf(sends, k)) <==> Reached(sends, k)
  {
    if AckedBefore(acked, LastOf(sends, k)) {
      forall j | k <= j < |sends|
        ensures !sends[j].ok
      {
        LedgerAt(sends, dequeued, acked, j);
        LastOfGrows(sends, dequeued, acked, k, j);
        assert acked[sends[j].to - 1].ok == sends[j].ok;
      }
    }
    if Reached(sends, k) {
      AcknowledgedReached(sends, dequeued, acked, k);
    }
  }

  lemma FirstWrites(ws: seq<Bytes>, to: nat)
    requires to <= |ws|
    ensures Concat(ws[..to]) <= Concat(ws)
  {
    ConcatAppend(ws[..to], ws[to..]);
    assert ws == ws[..to] + ws[to..];
  }

  /** The first `k` sends carried the first writes. */
  lemma BytesOfFirst(sends: seq<TW.Send>, dequeued: seq<Bytes>, acked: seq<TW.Ack>, k: nat)
    requires TW.Ledger(sends, dequeued, acked) && |acked| <= |dequeued| && k <= |sends|
    ensures LastOf(sends, k) <= |dequeued|
    ensures Concat(TW.DataOf(sends[..k])) == Concat(dequeued[..LastOf(sends, k)]) <= Concat(dequeued)
  {
    var to := LastOf(sends, k);
    LedgerBefore(sends, dequeued, acked, k);
    TW.LedgerConserves(sends[..k], dequeued, acked[..to]);
    FirstWrites(dequeued, to);
  }

  lemma BytesOfNext(sends: seq<TW.Send>, k: nat)
    requires k < |sends|
    ensures Concat(TW.DataOf(sends[..k + 1])) == Concat(TW.DataOf(sends[..k])) + sends[k].data
  {
    assert sends[..k + 1][..k] == sends[..k];
    ConcatSnoc(TW.DataOf(sends[..k]), sends[k].data);
  }

  /** `remote` is a beginning of the bytes of the writes: all of those of the first `k` sends, and not
      all of those of the next. */
  ghost predicate HasFirst(
    sends: seq<TW.Send>, dequeued: seq<Bytes>, acked: seq<TW.Ack>, k: nat, remote: Bytes)
  {
    && k <= |sends| && LastOf(sends, k) <= |acked| <= |dequeued|
    && Concat(dequeued[..LastOf(sends, k)]) <= remote <= Concat(dequeued)
    && (k == |sends| ==> remote == Concat(dequeued[..|acked|]))
    && (k < |sends| ==>
          && LastOf(sends, k + 1) <= |dequeued|
          && |remote| < |Concat(dequeued[..LastOf(sends, k + 1)])|)
  }

  lemma BetweenTwo(front: Bytes, part: Bytes, next: Bytes, all: Bytes)
    requires part <= next && front + next <= all
    ensures front <= front + part <= all
  {
    assert next == part + next[|part|..];
    Assoc(front, part, next[|part|..]);
  }

  lemma HasWhole(sends: seq<TW.Send>, dequeued: seq<Bytes>, acked: seq<TW.Ack>)
    requires TW.Ledger(sends, dequeued, acked) && |acked| <= |dequeued|
    ensures HasFirst(sends, dequeued, acked, |sends|, Concat(TW.DataOf(sends)))
  {
    BytesOfFirst(sends, dequeued, acked, |sends|);
    LedgerBefore(sends, dequeued, acked, |sends|);
    assert sends[..|sends|] == sends;
  }

  lemma HasPart(sends: seq<TW.Send>, dequeued: seq<Bytes>, acked: seq<TW.Ack>, k: nat, part: Bytes)
    requires TW.Ledger(sends, dequeued, acked) && |acked| <= |dequeued| && k < |sends|
    requires part <= sends[k].data && |part| < |sends[k].data|
    ensures HasFirst(sends, dequeued, acked, k, Concat(TW.DataOf(sends[..k])) + part)
  {
    var front := Concat(TW.DataOf(sends[..k]));
    assert LastOf(sends, k) <= |acked| by { LedgerBefore(sends, dequeued, acked, k); }
    assert front == Concat(dequeued[..LastOf(sends, k)]) by { BytesOfFirst(sends, dequeued, acked, k); }
    assert LastOf(sends, k + 1) <= |dequeued| && front + sends[k].data == Concat(dequeued[..LastOf(sends, k + 1)])
      && front + sends[k].data <= Concat(dequeued) by {
      BytesOfFirst(sends, dequeued, acked, k + 1);
      BytesOfNext(sends, k);
    }
    BetweenTwo(front, part, sends[k].data, Concat(dequeued));
  }

  /** What the remote took beyond the first `k` sends: nothing if there is no other, else not all of it. */
  predicate FallsShort(sends: seq<TW.Send>, k: nat, part: Bytes) {
    && k <= |sends|
    && (k == |sends| ==> part == [])
    && (k < |sends| ==> part <= sends[k].data && (sends[k].data != [] ==> |part| < |sends[k].data|))
  }

  lemma GivenIs(sends: seq<TW.Send>, handled: nat, cs: seq<Chance>)
    requires handled <= |sends| && |cs| == handled
    ensures var first := sends[..handled]; var k := Served(first, cs);
      && FallsShort(sends, k, Part(first, cs))
      && Given(first, cs) == Concat(TW.DataOf(sends[..k])) + Part(first, cs)
  {
    var first := sends[..handled];
    assert first[..Served(first, cs)] == sends[..Served(first, cs)];
    if Served(first, cs) == handled {
      NothingLeft(first, cs);
    } else {
      PartIsShort(first, cs);
    }
  }

  lemma HasGiven(sends: seq<TW.Send>, dequeued: seq<Bytes>, acked: seq<TW.Ack>, k: nat, part: Bytes)
    requires TW.Ledger(sends, dequeued, acked) && |acked| <= |dequeued| && FallsShort(sends, k, part)
    ensures HasFirst(sends, dequeued, acked, k, Concat(TW.DataOf(sends[..k])) + part)
  {
    if k == |sends| {
      HasWhole(sends, dequeued, acked);
      assert sends[..k] == sends && Concat(TW.DataOf(sends)) + [] == Concat(TW.DataOf(sends));
    } else {
      LedgerAt(sends, dequeued, acked, k);
      HasPart(sends, dequeued, acked, k, part);
    }
  }

  /** What the remote was given reaches from the served sends into the next one, not to its end. */
  lemma GivenBounds(
    sends: seq<TW.Send>, dequeued: seq<Bytes>, acked: seq<TW.Ack>, handled: nat, cs: seq<Chance>)
    requires TW.Ledger(sends, dequeued, acked) && |acked| <= |dequeued|
    requires handled <= |sends| && |cs| == handled
    ensures HasFirst(sends, dequeued, acked, Served(sends[..handled], cs), Given(sends[..handled], cs))
  {
    GivenIs(sends, handled, cs);
    HasGiven(sends, dequeued, acked, Served(sends[..handled], cs), Part(sends[..handled], cs));
  }

  /** In every run, if the handler handled the first `handled` sends: the remote was given the bytes of
      the first writes in order and once each, up to a send that it did not get whole, and possibly the
      beginning of that one. Every write acknowledged without an error is among the ones it got whole
      if and only if every send that succeeded was handled while the connection was registered and was
      taken whole. */
  lemma UploadsArePrefix(
    a: Aead, id: TF.ConnId, run: seq<TW.Input>, handled: nat, nonces: seq<Nonce>, cs: seq<Chance>)
    requires Sound(a) && TW.After(run).Some? && handled <= |TW.After(run).value.sends|
    requires |nonces| == |cs| == handled
    ensures var s := TW.After(run).value;
      var k := Served(s.sends[..handled], cs);
      && HasFirst(s.sends, s.dequeued, s.acked, k, ServeAll(a, id, s.sends[..handled], nonces, cs).remote)
      && (AckedBefore(s.acked, LastOf(s.sends, k)) <==> Reached(s.sends, k))
  {
    var s := TW.After(run).value;
    assert TW.Ledger(s.sends, s.dequeued, s.acked) && |s.acked| <= |s.dequeued| by {
      TW.RunAccounts(run);
    }
    RemoteGot(a, id, s.sends[..handled], nonces, cs);
    GivenBounds(s.sends, s.dequeued, s.acked, handled, cs);
    AckedBeforeIff(s.sends, s.dequeued, s.acked, Served(s.sends[..handled], cs));
  }

  /** One byte, dequeued, sent by the timer and acknowledged. */
  lemma OneByteAcknowledged()
    ensures TW.After([TW.Dequeue([1], true), TW.Fire(true)]) ==
      Some(TW.Pump([], [], TW.Unset, true, [[1]], [TW.Send(0, 1, [1], true)], [TW.Ack(0, true)]))
  {
    var one := TW.Extend([], TW.Dequeue([1], true));
    var s := TW.After(one).value;
    assert s.batch == [1] && s.acks == [0] && s.dequeued == [[1]];
    assert s == TW.Pump([1], [0], TW.Armed, true, [[1]], [], []);
    var both := TW.Extend(one, TW.Fire(true));
    assert both == [TW.Dequeue([1], true), TW.Fire(true)];
    var s' := TW.After(both).value;
    assert s'.sends == [TW.Send(0, 1, [1], true)] && s'.acked == [TW.Ack(0, true)];
  }

  /** The failure at its smallest: the remote ends, the server forgets the connection, the client
      writes one byte, and the write is acknowledged without an error though it went nowhere. */
  lemma AcknowledgedButDropped(a: Aead, id: TF.ConnId, nonce: Nonce)
    requires Sound(a)
    ensures var s := TW.After([TW.Dequeue([1], true), TW.Fire(true)]);
      && s.Some? && |s.value.sends| == 1 && s.value.acked == [TW.Ack(0, true)]
      && ServeAll(a, id, s.value.sends, [nonce], [Chance(true, 0, false)]).remote == []
  {
    OneByteAcknowledged();
    ServeBatch(a, id, FRESH_SERVER, nonce, [1], Chance(true, 0, false));
  }
}
