/** The outgoing side of QueuePacketConn: any number of writers, queue fetchers, receivers and the
    sweeper, interleaved. A write looks its queue up under the map's lock and sends into it later,
    so a sweep may come between. */
module OutgoingQueues {
  import opened Bytes
  import opened LossyQueue
  import opened Wrappers
  import CT = ClientTable

  datatype Write = Write(addr: CT.Addr, queue: CT.QueueId, p: Bytes)

  datatype State = State(
    clients: CT.State,
    queues: seq<Queue<Bytes>>,  // the channels, by identity
    pending: map<nat, Write>,   // writers between lookup and send
    calls: seq<CT.Call>,        // what was asked of the client map so far
    written: seq<Write>)        // the sends made so far

  const INIT := State(CT.State(map[], []), [], map[], [], [])

  datatype Event =
    | Fetch(addr: CT.Addr, now: int)                           // OutgoingQueue
    | Sweep(now: int, timeout: CT.Duration)                    // the goroutine of NewClientMap
    | WriteLookup(t: nat, addr: CT.Addr, now: int, p: Bytes)   // WriteTo, evaluating SendQueue(addr)
    | WriteSend(t: nat)                                        // WriteTo, its select
    | Receive(q: CT.QueueId)                                   // whoever drains a fetched queue

  predicate Enabled(s: State, ev: Event) {
    match ev
    case WriteLookup(t, _, _, _) => t !in s.pending
    case WriteSend(t) => t in s.pending && s.pending[t].queue < |s.queues|
    case Receive(q) => q < |s.queues| && s.queues[q].items != []
    case _ => true
  }

  function Ask(s: State, c: CT.Call): State {
    s.(clients := CT.Step(s.clients, c), calls := s.calls + [c],
       queues := if c.Lookup? && c.addr !in s.clients.table then s.queues + [Empty()] else s.queues)
  }

  function Next(s: State, ev: Event): State
    requires Enabled(s, ev)
  {
    match ev
    case Fetch(addr, now) => Ask(s, CT.Lookup(addr, now))
    case Sweep(now, timeout) => Ask(s, CT.RemoveExpired(now, timeout))
    case WriteLookup(t, addr, now, p) =>
      var s' := Ask(s, CT.Lookup(addr, now));
      s'.(pending := s'.pending[t := Write(addr, s'.clients.table[addr].queue, p)])
    case WriteSend(t) =>
      var w := s.pending[t];
      s.(pending := s.pending - {t}, written := s.written + [w],
         queues := s.queues[w.queue := Offer(s.queues[w.queue], w.p)])
    case Receive(q) => s.(queues := s.queues[q := Take(s.queues[q])])
  }

  ghost function After(es: seq<Event>): Option<State> {
    if es == [] then Some(INIT)
    else
      match After(es[..|es| - 1])
      case None => None
      case Some(s) => if Enabled(s, es[|es| - 1]) then Some(Next(s, es[|es| - 1])) else None
  }

  /** The packets sent into queue `q`. */
  function SentInto(ws: seq<Write>, q: CT.QueueId): seq<Bytes> {
    if ws == [] then []
    else SentInto(ws[..|ws| - 1], q) + if ws[|ws| - 1].queue == q then [ws[|ws| - 1].p] else []
  }

  /** The packets written to address `a`. */
  function WrittenTo(ws: seq<Write>, a: CT.Addr): seq<Bytes> {
    if ws == [] then []
    else WrittenTo(ws[..|ws| - 1], a) + if ws[|ws| - 1].addr == a then [ws[|ws| - 1].p] else []
  }

  predicate OwnQueue(w: Write, owners: seq<CT.Addr>) {
    w.queue < |owners| && owners[w.queue] == w.addr
  }

  /** The table is that of the calls made; every write went, or will go, into a queue made for its
      own address. */
  ghost predicate Addressed(s: State) {
    && s.clients == CT.After(s.calls, |s.calls|)
    && |s.queues| == |s.clients.owners|
    && (forall t :: t in s.pending ==> OwnQueue(s.pending[t], s.clients.owners))
    && (forall i :: 0 <= i < |s.written| ==> OwnQueue(s.written[i], s.clients.owners))
  }

  /** Every queue is lawful and was offered exactly what was sent into it. */
  ghost predicate Filled(s: State) {
    FilledAll(s.queues, s.written)
  }

  ghost predicate FilledAll(queues: seq<Queue<Bytes>>, ws: seq<Write>) {
    forall q :: 0 <= q < |queues| ==> FilledBy(queues[q], SentInto(ws, q))
  }

  ghost predicate FilledBy(queue: Queue<Bytes>, ps: seq<Bytes>) {
    Valid(queue) && Offers(queue.history) == ps
  }

  lemma {:induction false} AfterPrefix(cs: seq<CT.Call>, c: CT.Call, n: nat)
    requires n <= |cs|
    ensures CT.After(cs + [c], n) == CT.After(cs, n)
  {
    if n == 0 {
    } else {
      AfterPrefix(cs, c, n - 1);
    }
  }

  lemma AskAddressed(s: State, c: CT.Call)
    requires Addressed(s)
    ensures Addressed(Ask(s, c))
    ensures c.Lookup? ==> OwnQueue(Write(c.addr, Ask(s, c).clients.table[c.addr].queue, []), Ask(s, c).clients.owners)
  {
    AfterPrefix(s.calls, c, |s.calls|);
    CT.OwnedAlways(s.calls + [c], |s.calls| + 1);
  }

  lemma AddressedStep(s: State, ev: Event)
    requires Addressed(s) && Enabled(s, ev)
    ensures Addressed(Next(s, ev))
  {
    match ev
    case Fetch(addr, now) => AskAddressed(s, CT.Lookup(addr, now));
    case Sweep(now, timeout) => AskAddressed(s, CT.RemoveExpired(now, timeout));
    case WriteLookup(t, addr, now, p) => AskAddressed(s, CT.Lookup(addr, now));
    case _ =>
  }

  lemma {:induction false} NothingSentInto(ws: seq<Write>, owners: seq<CT.Addr>, q: nat)
    requires |owners| <= q && forall i :: 0 <= i < |ws| ==> OwnQueue(ws[i], owners)
    ensures SentInto(ws, q) == []
  {
    if ws == [] {
    } else {
      NothingSentInto(ws[..|ws| - 1], owners, q);
    }
  }

  lemma SentIntoSnoc(ws: seq<Write>, w: Write, q: nat)
    ensures SentInto(ws + [w], q) == SentInto(ws, q) + if w.queue == q then [w.p] else []
  {
  }

  lemma NewQueueFilled(queues: seq<Queue<Bytes>>, ws: seq<Write>)
    requires FilledAll(queues, ws) && SentInto(ws, |queues|) == []
    ensures FilledAll(queues + [Empty()], ws)
  {
    assert FilledBy(Empty(), []);
  }

  lemma AskFilled(s: State, c: CT.Call)
    requires Addressed(s) && Filled(s)
    ensures Filled(Ask(s, c))
  {
    NothingSentInto(s.written, s.clients.owners, |s.queues|);
    NewQueueFilled(s.queues, s.written);
  }

  lemma SendFilled(s: State, t: nat)
    requires Filled(s) && Enabled(s, WriteSend(t))
    ensures Filled(Next(s, WriteSend(t)))
  {
    var w := s.pending[t];
    var s' := Next(s, WriteSend(t));
    var queue := s.queues[w.queue];
    OfferValid(queue, w.p);
    forall q | 0 <= q < |s'.queues|
      ensures FilledBy(s'.queues[q], SentInto(s'.written, q))
    {
      SentIntoSnoc(s.written, w, q);
    }
  }

  lemma ReceiveFilled(s: State, q: CT.QueueId)
    requires Filled(s) && Enabled(s, Receive(q))
    ensures Filled(Next(s, Receive(q)))
  {
    TakeValid(s.queues[q]);
  }

  lemma FilledStep(s: State, ev: Event)
    requires Addressed(s) && Filled(s) && Enabled(s, ev)
    ensures Filled(Next(s, ev))
  {
    match ev
    case Fetch(addr, now) => AskFilled(s, CT.Lookup(addr, now));
    case Sweep(now, timeout) => AskFilled(s, CT.RemoveExpired(now, timeout));
    case WriteLookup(t, addr, now, p) => AskFilled(s, CT.Lookup(addr, now));
    case WriteSend(t) => SendFilled(s, t);
    case Receive(q) => ReceiveFilled(s, q);
  }

  lemma {:induction false} InvAlways(es: seq<Event>)
    requires After(es).Some?
    ensures Addressed(After(es).value) && Filled(After(es).value)
  {
    if es == [] {
    } else {
      InvAlways(es[..|es| - 1]);
      var s := After(es[..|es| - 1]).value;
      AddressedStep(s, es[|es| - 1]);
      FilledStep(s, es[|es| - 1]);
    }
  }

  lemma {:induction false} SentIsWritten(ws: seq<Write>, owners: seq<CT.Addr>, q: nat)
    requires q < |owners| && forall i :: 0 <= i < |ws| ==> OwnQueue(ws[i], owners)
    ensures Subseq(SentInto(ws, q), WrittenTo(ws, owners[q]))
  {
    if ws == [] {
    } else {
      var ws', w := ws[..|ws| - 1], ws[|ws| - 1];
      var sent, written := SentInto(ws', q), WrittenTo(ws', owners[q]);
      SentIsWritten(ws', owners, q);
      SubseqSnoc(sent, written, w.p);
      assert sent + [] == sent && written + [] == written;
    }
  }

  lemma OwnPackets(queue: Queue<Bytes>, ws: seq<Write>, owners: seq<CT.Addr>, q: nat)
    requires q < |owners| && forall i :: 0 <= i < |ws| ==> OwnQueue(ws[i], owners)
    requires FilledBy(queue, SentInto(ws, q))
    ensures |queue.items| <= QUEUE_SIZE
    ensures Subseq(Received(queue.history) + queue.items, WrittenTo(ws, owners[q]))
  {
    var h := queue.history;
    KeptIsSubseq(h);
    SentIsWritten(ws, owners, q);
    SubseqTransitive(Kept(h), Offers(h), WrittenTo(ws, owners[q]));
  }

  lemma AnsweredOwner(calls: seq<CT.Call>, i: nat)
    requires i < |calls| && calls[i].Lookup?
    ensures var owners := CT.After(calls, |calls|).owners; var q := CT.Answer(calls, i);
      q < |owners| && owners[q] == calls[i].addr
  {
    CT.OwnedAlways(calls, i + 1);
    CT.OwnersGrow(calls, i + 1, |calls|);
  }

  /** Over every run: a queue holds at most 32 packets, what came out of it and what is in it are
      an in-order selection of the packets written to the one address it was made for, and every
      lookup ever answered with it was of that address. */
  lemma QueuesCarryOwnPackets(es: seq<Event>, q: CT.QueueId)
    requires After(es).Some? && q < |After(es).value.queues|
    ensures var s := After(es).value; var queue := s.queues[q];
      && q < |s.clients.owners|
      && |queue.items| <= 32
      && Subseq(Received(queue.history) + queue.items, WrittenTo(s.written, s.clients.owners[q]))
      && forall i :: 0 <= i < |s.calls| && s.calls[i].Lookup? && CT.Answer(s.calls, i) == q ==>
           s.calls[i].addr == s.clients.owners[q]
  {
    InvAlways(es);
    var s := After(es).value;
    OwnPackets(s.queues[q], s.written, s.clients.owners, q);
    forall i | 0 <= i < |s.calls| && s.calls[i].Lookup? && CT.Answer(s.calls, i) == q
      ensures s.calls[i].addr == s.clients.owners[q]
    {
      AnsweredOwner(s.calls, i);
    }
  }

  // ----- what the events put into the state -----

  /** The call of the client map that an event makes. */
  function CallOf(ev: Event): seq<CT.Call> {
    match ev
    case Fetch(addr, now) => [CT.Lookup(addr, now)]
    case Sweep(now, timeout) => [CT.RemoveExpired(now, timeout)]
    case WriteLookup(_, addr, now, _) => [CT.Lookup(addr, now)]
    case _ => []
  }

  function CallsBy(es: seq<Event>): seq<CT.Call> {
    if es == [] then [] else CallsBy(es[..|es| - 1]) + CallOf(es[|es| - 1])
  }

  /** The write goroutine `t` is in the middle of: address and packet of its call of WriteTo, and the
      queue that its own lookup got. */
  function WriteOf(es: seq<Event>, t: nat): Option<Write> {
    if es == [] then None
    else
      match es[|es| - 1]
      case WriteLookup(u, addr, _, p) =>
        if u == t then Some(Write(addr, CT.Answer(CallsBy(es), |CallsBy(es)| - 1), p)) else WriteOf(es[..|es| - 1], t)
      case WriteSend(u) => if u == t then None else WriteOf(es[..|es| - 1], t)
      case _ => WriteOf(es[..|es| - 1], t)
  }

  /** The writes that were completed. */
  function WrittenBy(es: seq<Event>): seq<Write> {
    if es == [] then []
    else
      var es', ev := es[..|es| - 1], es[|es| - 1];
      WrittenBy(es') +
      if ev.WriteSend? && WriteOf(es', ev.t).Some? then [WriteOf(es', ev.t).value] else []
  }

  function Receives(es: seq<Event>, q: CT.QueueId): nat {
    if es == [] then 0 else Receives(es[..|es| - 1], q) + if es[|es| - 1] == Receive(q) then 1 else 0
  }

  ghost predicate PendingRecorded(s: State, es: seq<Event>) {
    forall t :: if t in s.pending then WriteOf(es, t) == Some(s.pending[t]) else WriteOf(es, t) == None
  }

  ghost predicate ReceivesRecorded(queues: seq<Queue<Bytes>>, es: seq<Event>) {
    && (forall q :: 0 <= q < |queues| ==> |Received(queues[q].history)| == Receives(es, q))
    && (forall q: nat :: |queues| <= q ==> Receives(es, q) == 0)
  }

  lemma PendingStep(s: State, es: seq<Event>, ev: Event)
    requires Addressed(s) && Enabled(s, ev) && s.calls == CallsBy(es) && PendingRecorded(s, es)
    ensures Next(s, ev).calls == CallsBy(es + [ev]) && PendingRecorded(Next(s, ev), es + [ev])
  {
    assert (es + [ev])[..|es|] == es;
    if ev.WriteLookup? {
      AskAddressed(s, CT.Lookup(ev.addr, ev.now));
    }
  }

  lemma ReceivesStep(s: State, es: seq<Event>, ev: Event)
    requires Filled(s) && Enabled(s, ev) && ReceivesRecorded(s.queues, es)
    ensures ReceivesRecorded(Next(s, ev).queues, es + [ev])
  {
    assert (es + [ev])[..|es|] == es;
    if ev.Receive? {
      assert FilledBy(s.queues[ev.q], SentInto(s.written, ev.q));
      TakeValid(s.queues[ev.q]);
    } else if ev.WriteSend? {
      var w := s.pending[ev.t];
      assert FilledBy(s.queues[w.queue], SentInto(s.written, w.queue));
      OfferValid(s.queues[w.queue], w.p);
    }
  }

  /** In every run: the client map was asked just what the calls ask; every write goes with the address
      and packet of its WriteTo into the queue its own lookup got, all of them in the order of their
      sends; a write that looked its queue up can always complete; and each receive took one packet. */
  lemma {:induction false} RecordsAlways(es: seq<Event>)
    requires After(es).Some?
    ensures var s := After(es).value;
      && s.calls == CallsBy(es) && s.written == WrittenBy(es)
      && PendingRecorded(s, es) && ReceivesRecorded(s.queues, es)
      && forall t :: t in s.pending ==> Enabled(s, WriteSend(t))
  {
    InvAlways(es);
    if es == [] {
    } else {
      var es', ev := es[..|es| - 1], es[|es| - 1];
      var s := After(es').value;
      RecordsAlways(es');
      InvAlways(es');
      assert es' + [ev] == es;
      PendingStep(s, es', ev);
      ReceivesStep(s, es', ev);
    }
  }
}
