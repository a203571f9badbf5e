/** RedialPacketConn: the dial loop and, for every connection it ever dialed, the two workers of
    `exchange`, which may outlive it. A step is one atomic action of one goroutine; the two error
    channels of an exchange are unbuffered, so a send completes only together with a receive. */
module Redial {
  import opened Bytes
  import opened LossyQueue
  import opened Wrappers

  const BUFFER_SIZE: nat := 1500

  // ----- state -----

  /** The goroutine that reads from the connection; readErrCh is closed in RDone only. */
  datatype Reader =
    | RSelect              // in its select
    | RReading             // in conn.ReadFrom
    | RHolding(p: Bytes)   // with a packet for the receive queue
    | RFailed              // blocked sending on readErrCh
    | RReturning           // returning, before the deferred close
    | RDone

  /** The goroutine that writes to the connection; writeErrCh is closed in WDone only. */
  datatype Writer =
    | WSelect
    | WHolding(p: Bytes)   // with a packet for conn.WriteTo
    | WFailed              // blocked sending on writeErrCh
    | WReturning
    | WDone

  datatype Conn = Conn(
    reader: Reader,
    writer: Writer,
    got: seq<Bytes>,       // the packets its ReadFrom came upon
    wrote: seq<Bytes>)     // the packets handed to its WriteTo

  datatype DialLoop = Top | Dialing | Exchanging(k: nat) | Leaving(k: nat) | Stopped

  /** A received packet and the connection it came from. */
  datatype Tagged = Tagged(conn: nat, p: Bytes)

  datatype State = State(
    closed: bool,
    loop: DialLoop,
    conns: seq<Conn>,
    sendQueue: Queue<Bytes>,
    takers: seq<nat>,      // which connection's worker made each receive from sendQueue
    recvQueue: Queue<Tagged>)

  const INIT := State(false, Top, [], Empty(), [], Empty())

  // ----- steps -----

  datatype Event =
    | Close                            // closeWithError, by anyone
    | WriteTo(p: Bytes)                // the second select of WriteTo
    | ReadFrom                         // the second select of ReadFrom, taking a packet
    | Check                            // dialLoop: its select
    | Dial(ok: bool)                   // dialLoop: dialContext
    | WakeByReader                     // exchange: <-readErrCh
    | WakeByWriter                     // exchange: <-writeErrCh
    | CloseConn                        // dialLoop: conn.Close
    | Read(k: nat, ra: ReadAction)
    | Write(k: nat, wa: WriteAction)

  datatype ReadAction = RStop | RHear | RGo | RGot(x: Bytes) | RFail | ROffer | RClose

  datatype WriteAction = WStop | WHear | WTake | WSend(ok: bool) | WClose

  /** A receive on readErrCh can complete: its reader is sending, or has closed it. */
  predicate ReaderSpeaks(c: Conn) {
    c.reader.RFailed? || c.reader.RDone?
  }

  predicate WriterSpeaks(c: Conn) {
    c.writer.WFailed? || c.writer.WDone?
  }

  /** What a receive on readErrCh does to the reader. */
  function ReaderHeard(r: Reader): Reader {
    if r.RFailed? then RReturning else r
  }

  function WriterHeard(w: Writer): Writer {
    if w.WFailed? then WReturning else w
  }

  predicate ReadEnabled(s: State, c: Conn, a: ReadAction) {
    match a
    case RStop => c.reader.RSelect? && s.closed
    case RHear => c.reader.RSelect? && WriterSpeaks(c)
    case RGo => c.reader.RSelect? && !s.closed && !WriterSpeaks(c)
    case RGot(_) => c.reader.RReading?
    case RFail => c.reader.RReading?
    case ROffer => c.reader.RHolding?
    case RClose => c.reader.RReturning?
  }

  predicate WriteEnabled(s: State, c: Conn, a: WriteAction) {
    match a
    case WStop => c.writer.WSelect? && s.closed
    case WHear => c.writer.WSelect? && ReaderSpeaks(c)
    case WTake => c.writer.WSelect? && s.sendQueue.items != []
    case WSend(_) => c.writer.WHolding?
    case WClose => c.writer.WReturning?
  }

  predicate Enabled(s: State, ev: Event) {
    match ev
    case Close => true
    case WriteTo(_) => true
    case ReadFrom => s.recvQueue.items != []
    case Check => s.loop.Top?
    case Dial(_) => s.loop.Dialing?
    case WakeByReader => s.loop.Exchanging? && s.loop.k < |s.conns| && ReaderSpeaks(s.conns[s.loop.k])
    case WakeByWriter => s.loop.Exchanging? && s.loop.k < |s.conns| && WriterSpeaks(s.conns[s.loop.k])
    case CloseConn => s.loop.Leaving?
    case Read(k, a) => k < |s.conns| && ReadEnabled(s, s.conns[k], a)
    case Write(k, a) => k < |s.conns| && WriteEnabled(s, s.conns[k], a)
  }

  /** conn.ReadFrom fills at most the 1500 bytes of the buffer. */
  function Cut(x: Bytes): Bytes {
    FirstBytes(x, BUFFER_SIZE)
  }

  function ReadConn(c: Conn, a: ReadAction): Conn {
    match a
    case RStop => c.(reader := RReturning)
    case RHear => c.(reader := RReturning, writer := WriterHeard(c.writer))
    case RGo => c.(reader := RReading)
    case RGot(x) => c.(reader := RHolding(Cut(x)), got := c.got + [x])
    case RFail => c.(reader := RFailed)
    case ROffer => c.(reader := RSelect)
    case RClose => c.(reader := RDone)
  }

  function WriteConn(s: State, c: Conn, a: WriteAction): Conn
    requires WriteEnabled(s, c, a)
  {
    match a
    case WStop => c.(writer := WReturning)
    case WHear => c.(writer := WReturning, reader := ReaderHeard(c.reader))
    case WTake => c.(writer := WHolding(s.sendQueue.items[0]))
    case WSend(ok) => c.(writer := if ok then WSelect else WFailed, wrote := c.wrote + [c.writer.p])
    case WClose => c.(writer := WDone)
  }

  function Next(s: State, ev: Event): State
    requires Enabled(s, ev)
  {
    match ev
    case Close => s.(closed := true)
    case WriteTo(p) => s.(sendQueue := Offer(s.sendQueue, p))
    case ReadFrom => s.(recvQueue := Take(s.recvQueue))
    case Check => s.(loop := if s.closed then Stopped else Dialing)
    case Dial(ok) =>
      if ok then s.(loop := Exchanging(|s.conns|), conns := s.conns + [Conn(RSelect, WSelect, [], [])])
      else s.(loop := Stopped, closed := true)
    case WakeByReader =>
      var c := s.conns[s.loop.k];
      s.(loop := Leaving(s.loop.k), conns := s.conns[s.loop.k := c.(reader := ReaderHeard(c.reader))])
    case WakeByWriter =>
      var c := s.conns[s.loop.k];
      s.(loop := Leaving(s.loop.k), conns := s.conns[s.loop.k := c.(writer := WriterHeard(c.writer))])
    case CloseConn => s.(loop := Top)
    case Read(k, a) =>
      s.(conns := s.conns[k := ReadConn(s.conns[k], a)],
         recvQueue := if a.ROffer? then Offer(s.recvQueue, Tagged(k, s.conns[k].reader.p)) else s.recvQueue)
    case Write(k, a) =>
      s.(conns := s.conns[k := WriteConn(s, s.conns[k], a)],
         sendQueue := if a.WTake? then Take(s.sendQueue) else s.sendQueue,
         takers := if a.WTake? then s.takers + [k] else s.takers)
  }

  /** The state after a run, if every event of it was enabled when it came. */
  ghost function After(es: seq<Event>): Option<State> {
    if es == [] then Some(INIT)
    else
      match After(es[..|es| - 1])
      case None => None
      case Some(s) => if Enabled(s, es[|es| - 1]) then Some(Next(s, es[|es| - 1])) else None
  }

  // ----- packets out -----

  /** The packets among `ps` that connection `k` took. */
  function TakenBy(ps: seq<Bytes>, takers: seq<nat>, k: nat): seq<Bytes>
    requires |ps| == |takers|
  {
    if ps == [] then []
    else
      var n := |ps| - 1;
      TakenBy(ps[..n], takers[..n], k) + if takers[n] == k then [ps[n]] else []
  }

  function InWriter(c: Conn): seq<Bytes> {
    if c.writer.WHolding? then [c.writer.p] else []
  }

  ghost predicate Wrote(c: Conn, ps: seq<Bytes>, takers: seq<nat>, k: nat) {
    |ps| == |takers| && c.wrote + InWriter(c) == TakenBy(ps, takers, k)
  }

  /** Each of the packets `ps` left the send queue for one connection, which wrote it once, in the
      order of leaving, or still holds it. */
  ghost predicate AllWrote(conns: seq<Conn>, ps: seq<Bytes>, takers: seq<nat>) {
    && |ps| == |takers|
    && (forall i :: 0 <= i < |takers| ==> takers[i] < |conns|)
    && (forall k :: 0 <= k < |conns| ==> Wrote(conns[k], ps, takers, k))
  }

  ghost predicate Sending(s: State) {
    Valid(s.sendQueue) && AllWrote(s.conns, Received(s.sendQueue.history), s.takers)
  }

  lemma {:induction false} NotTaken(ps: seq<Bytes>, takers: seq<nat>, k: nat)
    requires |ps| == |takers| && forall i :: 0 <= i < |takers| ==> takers[i] < k
    ensures TakenBy(ps, takers, k) == []
  {
    if ps == [] {
    } else {
      NotTaken(ps[..|ps| - 1], takers[..|ps| - 1], k);
    }
  }

  lemma TakenBySnoc(ps: seq<Bytes>, takers: seq<nat>, p: Bytes, t: nat, k: nat)
    requires |ps| == |takers|
    ensures TakenBy(ps + [p], takers + [t], k) == TakenBy(ps, takers, k) + if t == k then [p] else []
  {
    assert (ps + [p])[..|ps|] == ps && (takers + [t])[..|ps|] == takers;
  }

  /** A worker takes `p` and holds it. */
  lemma TakeWrote(conns: seq<Conn>, ps: seq<Bytes>, takers: seq<nat>, k: nat, p: Bytes)
    requires AllWrote(conns, ps, takers) && k < |conns| && conns[k].writer.WSelect?
    ensures AllWrote(conns[k := conns[k].(writer := WHolding(p))], ps + [p], takers + [k])
  {
    var conns' := conns[k := conns[k].(writer := WHolding(p))];
    forall j | 0 <= j < |conns|
      ensures Wrote(conns'[j], ps + [p], takers + [k], j)
    {
      TakenBySnoc(ps, takers, p, k, j);
      assert Wrote(conns[j], ps, takers, j);
    }
  }

  /** Changing one connection but not what it wrote and holds. */
  lemma ReplaceWrote(conns: seq<Conn>, ps: seq<Bytes>, takers: seq<nat>, k: nat, c: Conn)
    requires AllWrote(conns, ps, takers) && k < |conns|
    requires c.wrote + InWriter(c) == conns[k].wrote + InWriter(conns[k])
    ensures AllWrote(conns[k := c], ps, takers)
  {
    assert Wrote(conns[k], ps, takers, k);
  }

  lemma AddWrote(conns: seq<Conn>, ps: seq<Bytes>, takers: seq<nat>, c: Conn)
    requires AllWrote(conns, ps, takers) && c.wrote == [] && !c.writer.WHolding?
    ensures AllWrote(conns + [c], ps, takers)
  {
    NotTaken(ps, takers, |conns|);
  }

  /** Every step but a take leaves what was taken where it is. */
  lemma ConnsWrote(s: State, ev: Event, ps: seq<Bytes>)
    requires AllWrote(s.conns, ps, s.takers) && Enabled(s, ev) && !(ev.Write? && ev.wa.WTake?)
    ensures AllWrote(Next(s, ev).conns, ps, s.takers)
  {
    var conns := Next(s, ev).conns;
    match ev
    case Dial(ok) => if ok { AddWrote(s.conns, ps, s.takers, conns[|s.conns|]); }
    case Write(k, _) => ReplaceWrote(s.conns, ps, s.takers, k, conns[k]);
    case Read(k, _) => ReplaceWrote(s.conns, ps, s.takers, k, conns[k]);
    case WakeByReader => ReplaceWrote(s.conns, ps, s.takers, s.loop.k, conns[s.loop.k]);
    case WakeByWriter => ReplaceWrote(s.conns, ps, s.takers, s.loop.k, conns[s.loop.k]);
    case _ =>
  }

  lemma SendingStep(s: State, ev: Event)
    requires Sending(s) && Enabled(s, ev)
    ensures Sending(Next(s, ev))
  {
    var ps := Received(s.sendQueue.history);
    if ev.Write? && ev.wa.WTake? {
      TakeValid(s.sendQueue);
      TakeWrote(s.conns, ps, s.takers, ev.k, s.sendQueue.items[0]);
    } else {
      ConnsWrote(s, ev, ps);
      if ev.WriteTo? {
        OfferValid(s.sendQueue, ev.p);
      }
    }
  }

  // ----- packets in -----

  /** The packets among `xs` that came from connection `k`. */
  function From(xs: seq<Tagged>, k: nat): seq<Bytes> {
    if xs == [] then []
    else From(xs[..|xs| - 1], k) + if xs[|xs| - 1].conn == k then [xs[|xs| - 1].p] else []
  }

  function CutAll(xs: seq<Bytes>): seq<Bytes> {
    if xs == [] then [] else CutAll(xs[..|xs| - 1]) + [Cut(xs[|xs| - 1])]
  }

  function InReader(c: Conn): seq<Bytes> {
    if c.reader.RHolding? then [c.reader.p] else []
  }

  ghost predicate WasRead(c: Conn, xs: seq<Tagged>, k: nat) {
    From(xs, k) + InReader(c) == CutAll(c.got)
  }

  /** What each connection's reader came upon, cut, is among the packets `xs` offered to the receive
      queue, once and in order, or is still in the reader's hand. */
  ghost predicate AllRead(conns: seq<Conn>, xs: seq<Tagged>) {
    && (forall x :: x in xs ==> x.conn < |conns|)
    && (forall k :: 0 <= k < |conns| ==> WasRead(conns[k], xs, k))
  }

  ghost predicate Receiving(s: State) {
    Valid(s.recvQueue) && AllRead(s.conns, Offers(s.recvQueue.history))
  }

  lemma {:induction false} NoneFrom(xs: seq<Tagged>, k: nat)
    requires forall x :: x in xs ==> x.conn < k
    ensures From(xs, k) == []
  {
    if xs == [] {
    } else {
      NoneFrom(xs[..|xs| - 1], k);
    }
  }

  lemma FromSnoc(xs: seq<Tagged>, x: Tagged, k: nat)
    ensures From(xs + [x], k) == From(xs, k) + if x.conn == k then [x.p] else []
  {
    assert (xs + [x])[..|xs|] == xs;
  }

  lemma CutAllSnoc(xs: seq<Bytes>, x: Bytes)
    ensures CutAll(xs + [x]) == CutAll(xs) + [Cut(x)]
  {
    assert (xs + [x])[..|xs|] == xs;
  }

  /** A reader offers the packet it holds. */
  lemma OfferRead(conns: seq<Conn>, xs: seq<Tagged>, k: nat)
    requires AllRead(conns, xs) && k < |conns| && conns[k].reader.RHolding?
    ensures AllRead(conns[k := conns[k].(reader := RSelect)], xs + [Tagged(k, conns[k].reader.p)])
  {
    var x := Tagged(k, conns[k].reader.p);
    var conns' := conns[k := conns[k].(reader := RSelect)];
    forall j | 0 <= j < |conns|
      ensures WasRead(conns'[j], xs + [x], j)
    {
      FromSnoc(xs, x, j);
      assert WasRead(conns[j], xs, j);
    }
  }

  lemma ReplaceRead(conns: seq<Conn>, xs: seq<Tagged>, k: nat, c: Conn)
    requires AllRead(conns, xs) && k < |conns| && WasRead(c, xs, k)
    ensures AllRead(conns[k := c], xs)
  {
  }

  lemma AddRead(conns: seq<Conn>, xs: seq<Tagged>, c: Conn)
    requires AllRead(conns, xs) && c.got == [] && !c.reader.RHolding?
    ensures AllRead(conns + [c], xs)
  {
    NoneFrom(xs, |conns|);
    var conns' := conns + [c];
    forall k | 0 <= k < |conns'|
      ensures WasRead(conns'[k], xs, k)
    {
      if k < |conns| {
        assert WasRead(conns[k], xs, k);
      }
    }
  }

  /** A reader's own action, unless it offers. */
  lemma ReadConnRead(c: Conn, xs: seq<Tagged>, k: nat, s: State, a: ReadAction)
    requires WasRead(c, xs, k) && ReadEnabled(s, c, a) && !a.ROffer?
    ensures WasRead(ReadConn(c, a), xs, k)
  {
    if a.RGot? {
      CutAllSnoc(c.got, a.x);
    }
  }

  lemma SameRead(c: Conn, xs: seq<Tagged>, k: nat, c': Conn)
    requires WasRead(c, xs, k) && c'.got == c.got && InReader(c') == InReader(c)
    ensures WasRead(c', xs, k)
  {
  }

  /** Every step but an offer leaves what was offered as it is. */
  lemma ConnsRead(s: State, ev: Event, xs: seq<Tagged>)
    requires AllRead(s.conns, xs) && Enabled(s, ev) && !(ev.Read? && ev.ra.ROffer?)
    ensures AllRead(Next(s, ev).conns, xs)
  {
    var conns := Next(s, ev).conns;
    match ev
    case Dial(ok) => if ok { AddRead(s.conns, xs, conns[|s.conns|]); }
    case Read(k, a) =>
      ReadConnRead(s.conns[k], xs, k, s, a);
      ReplaceRead(s.conns, xs, k, conns[k]);
    case Write(k, _) =>
      SameRead(s.conns[k], xs, k, conns[k]);
      ReplaceRead(s.conns, xs, k, conns[k]);
    case WakeByReader =>
      SameRead(s.conns[s.loop.k], xs, s.loop.k, conns[s.loop.k]);
      ReplaceRead(s.conns, xs, s.loop.k, conns[s.loop.k]);
    case WakeByWriter =>
      SameRead(s.conns[s.loop.k], xs, s.loop.k, conns[s.loop.k]);
      ReplaceRead(s.conns, xs, s.loop.k, conns[s.loop.k]);
    case _ =>
  }

  lemma ReceivingStep(s: State, ev: Event)
    requires Receiving(s) && Enabled(s, ev)
    ensures Receiving(Next(s, ev))
  {
    var xs := Offers(s.recvQueue.history);
    if ev.Read? && ev.ra.ROffer? {
      OfferValid(s.recvQueue, Tagged(ev.k, s.conns[ev.k].reader.p));
      OfferRead(s.conns, xs, ev.k);
    } else {
      ConnsRead(s, ev, xs);
      if ev.ReadFrom? {
        TakeValid(s.recvQueue);
      }
    }
  }

  // ----- every run -----

  lemma {:induction false} TrafficAlways(es: seq<Event>)
    requires After(es).Some?
    ensures Sending(After(es).value) && Receiving(After(es).value)
  {
    if es == [] {
    } else {
      TrafficAlways(es[..|es| - 1]);
      SendingStep(After(es[..|es| - 1]).value, es[|es| - 1]);
      ReceivingStep(After(es[..|es| - 1]).value, es[|es| - 1]);
    }
  }

  lemma {:induction false} TakenBySubseq(ps: seq<Bytes>, takers: seq<nat>, k: nat)
    requires |ps| == |takers|
    ensures Subseq(TakenBy(ps, takers, k), ps)
  {
    if ps == [] {
    } else {
      var n := |ps| - 1;
      var sub := TakenBy(ps[..n], takers[..n], k);
      TakenBySubseq(ps[..n], takers[..n], k);
      SubseqSnoc(sub, ps[..n], ps[n]);
      assert sub + [] == sub && ps[..n] + [ps[n]] == ps;
    }
  }

  lemma {:induction false} FromSubseq(xs: seq<Tagged>, ys: seq<Tagged>, k: nat)
    requires Subseq(xs, ys)
    ensures Subseq(From(xs, k), From(ys, k))
    decreases |ys|
  {
    if xs == [] {
    } else {
      var xs', ys', y := xs[..|xs| - 1], ys[..|ys| - 1], ys[|ys| - 1];
      if Subseq(xs, ys') {
        FromSubseq(xs, ys', k);
        SubseqSnoc(From(xs, k), From(ys', k), y.p);
      } else {
        FromSubseq(xs', ys', k);
        SubseqSnoc(From(xs', k), From(ys', k), y.p);
      }
      assert From(ys', k) + [] == From(ys', k) && From(xs', k) + [] == From(xs', k);
    }
  }

  /** What each connection was given to write is an in-order selection of what WriteTo was called
      with, and no packet that left the send queue went to two connections or twice to one. */
  lemma WritesInOrderOnce(es: seq<Event>, k: nat)
    requires After(es).Some? && k < |After(es).value.conns|
    ensures var s := After(es).value; var ps := Received(s.sendQueue.history);
      && |ps| == |s.takers|
      && s.conns[k].wrote <= TakenBy(ps, s.takers, k)
      && Subseq(s.conns[k].wrote, Offers(s.sendQueue.history))
  {
    TrafficAlways(es);
    var s := After(es).value;
    var h := s.sendQueue.history;
    assert Wrote(s.conns[k], Received(h), s.takers, k);
    TakenBySubseq(Received(h), s.takers, k);
    PrefixIsSubseq(s.conns[k].wrote, TakenBy(Received(h), s.takers, k));
    SubseqTransitive(s.conns[k].wrote, TakenBy(Received(h), s.takers, k), Received(h));
    ReceivedSubseq(s.sendQueue);
    SubseqTransitive(s.conns[k].wrote, Received(h), Offers(h));
  }

  lemma ReceivedSubseq<T>(q: Queue<T>)
    requires Valid(q)
    ensures Subseq(Received(q.history), Offers(q.history))
  {
    KeptIsSubseq(q.history);
    PrefixIsSubseq(Received(q.history), Kept(q.history));
    SubseqTransitive(Received(q.history), Kept(q.history), Offers(q.history));
  }

  /** Cutting keeps each packet's place and its first 1500 bytes. */
  lemma {:induction false} CutAllPointwise(xs: seq<Bytes>)
    ensures |CutAll(xs)| == |xs|
    ensures forall i :: 0 <= i < |xs| ==>
      CutAll(xs)[i] <= xs[i] && |CutAll(xs)[i]| == if |xs[i]| < 1500 then |xs[i]| else 1500
  {
    if xs == [] {
    } else {
      CutAllPointwise(xs[..|xs| - 1]);
    }
  }

  /** What ReadFrom returned of one connection is an in-order selection of what that connection
      received, each packet at most once and cut to 1500 bytes. */
  lemma ReadsInOrderOnce(es: seq<Event>, k: nat)
    requires After(es).Some? && k < |After(es).value.conns|
    ensures var s := After(es).value;
      Subseq(From(Received(s.recvQueue.history), k), CutAll(s.conns[k].got))
  {
    TrafficAlways(es);
    var s := After(es).value;
    var h := s.recvQueue.history;
    assert WasRead(s.conns[k], Offers(h), k);
    ReceivedSubseq(s.recvQueue);
    FromSubseq(Received(h), Offers(h), k);
    PrefixIsSubseq(From(Offers(h), k), CutAll(s.conns[k].got));
    SubseqTransitive(From(Received(h), k), From(Offers(h), k), CutAll(s.conns[k].got));
  }

  // ----- no error is swallowed -----

  /** One of the workers hit an error or is finishing. */
  predicate Faulted(c: Conn) {
    c.reader.RFailed? || c.reader.RReturning? || c.reader.RDone? ||
    c.writer.WFailed? || c.writer.WReturning? || c.writer.WDone?
  }

  /** The select at the end of exchange can proceed. */
  predicate Awake(s: State) {
    Enabled(s, WakeByReader) || Enabled(s, WakeByWriter)
  }

  lemma FaultStays(s: State, ev: Event, k: nat)
    requires Enabled(s, ev) && k < |s.conns| && Faulted(s.conns[k])
    ensures k < |Next(s, ev).conns| && Faulted(Next(s, ev).conns[k])
  {
  }

  /** The deferred close of a worker that is returning. */
  function DeferredClose(c: Conn, k: nat): Event {
    if c.reader.RReturning? then Read(k, RClose) else Write(k, WClose)
  }

  lemma {:induction false} FaultPersists(es: seq<Event>, m: nat, k: nat)
    requires After(es).Some? && m <= |es|
    requires After(es[..m]).Some? && k < |After(es[..m]).value.conns| && Faulted(After(es[..m]).value.conns[k])
    ensures k < |After(es).value.conns| && Faulted(After(es).value.conns[k])
  {
    if m == |es| {
      assert es[..m] == es;
    } else {
      var es' := es[..|es| - 1];
      assert es'[..m] == es[..m];
      FaultPersists(es', m, k);
      FaultStays(After(es').value, es[|es| - 1], k);
    }
  }

  /** The loop can proceed now, or after a worker's deferred close, which is enabled. */
  predicate Waking(s: State, k: nat)
    requires k < |s.conns|
  {
    || Awake(s)
    || (var ev := DeferredClose(s.conns[k], k); Enabled(s, ev) && Awake(Next(s, ev)))
  }

  lemma FaultWakes(s: State, k: nat)
    requires k < |s.conns| && Faulted(s.conns[k]) && s.loop == Exchanging(k)
    ensures Waking(s, k)
  {
  }

  /** Once a worker of the exchange being waited on has hit an error or finished, at any later
      point of any run, whoever received the error, either the loop has moved on, or it can proceed
      now, or it can after one worker step that is enabled. */
  lemma ErrorNeverSwallowed(es: seq<Event>, m: nat, k: nat)
    requires After(es).Some? && m <= |es|
    requires After(es[..m]).Some? && k < |After(es[..m]).value.conns| && Faulted(After(es[..m]).value.conns[k])
    ensures k < |After(es).value.conns|
    ensures After(es).value.loop == Exchanging(k) ==> Waking(After(es).value, k)
  {
    FaultPersists(es, m, k);
    if After(es).value.loop == Exchanging(k) {
      FaultWakes(After(es).value, k);
    }
  }

  lemma CloseIsForGood(s: State, ev: Event, k: nat)
    requires Enabled(s, ev) && k < |s.conns|
    ensures k < |Next(s, ev).conns|
    ensures var c, c' := s.conns[k], Next(s, ev).conns[k];
      && (c.reader.RDone? ==> c'.reader.RDone?)
      && (c.writer.WDone? ==> c'.writer.WDone?)
      && (c.reader.RReturning? ==> c'.reader == if ev == Read(k, RClose) then RDone else RReturning)
      && (c.writer.WReturning? ==> c'.writer == if ev == Write(k, WClose) then WDone else WReturning)
  {
  }

  /** From any point of any run on, a worker that is returning stays so until its deferred close is
      made, and that close is never undone. */
  lemma {:induction false} ReturnIsForGood(es: seq<Event>, m: nat, k: nat)
    requires After(es).Some? && m <= |es|
    requires After(es[..m]).Some? && k < |After(es[..m]).value.conns|
    ensures k < |After(es).value.conns|
    ensures var c, c' := After(es[..m]).value.conns[k], After(es).value.conns[k];
      && (c.reader.RDone? ==> c'.reader.RDone?)
      && (c.writer.WDone? ==> c'.writer.WDone?)
      && (c.reader.RReturning? ==> c'.reader == if Read(k, RClose) in es[m..] then RDone else RReturning)
      && (c.writer.WReturning? ==> c'.writer == if Write(k, WClose) in es[m..] then WDone else WReturning)
  {
    if m == |es| {
      assert es[..m] == es;
    } else {
      var n := |es| - 1;
      assert es[..n][..m] == es[..m] && es[m..] == es[..n][m..] + [es[n]];
      ReturnIsForGood(es[..n], m, k);
      CloseIsForGood(After(es[..n]).value, es[n], k);
    }
  }

  /** So once a worker of the exchange being waited on has made its close, the loop is able to proceed
      at every later point of any run, until it does: the one worker step that ErrorNeverSwallowed may
      need is needed only once. */
  lemma AwakeForGood(es: seq<Event>, m: nat, k: nat)
    requires After(es).Some? && m <= |es|
    requires After(es[..m]).Some? && k < |After(es[..m]).value.conns|
    requires var c := After(es[..m]).value.conns[k];
      || c.reader.RDone? || (c.reader.RReturning? && Read(k, RClose) in es[m..])
      || c.writer.WDone? || (c.writer.WReturning? && Write(k, WClose) in es[m..])
    ensures After(es).value.loop == Exchanging(k) ==> Awake(After(es).value)
  {
    ReturnIsForGood(es, m, k);
  }

  /** What a worker does when it stops: on the close, on word from the other worker, or on an error. */
  predicate ReaderStops(a: ReadAction) {
    a.RStop? || a.RHear? || a.RFail?
  }

  predicate WriterStops(a: WriteAction) {
    a.WStop? || a.WHear? || a == WSend(false)
  }

  predicate Stops(ev: Event, k: nat) {
    || (ev.Read? && ev.k == k && ReaderStops(ev.ra))
    || (ev.Write? && ev.k == k && WriterStops(ev.wa))
  }

  lemma {:induction false} Prefix(es: seq<Event>, m: nat)
    requires After(es).Some? && m <= |es|
    ensures After(es[..m]).Some?
    ensures m < |es| ==> Enabled(After(es[..m]).value, es[m])
    ensures m < |es| ==> After(es[..m + 1]) == Some(Next(After(es[..m]).value, es[m]))
  {
    if m == |es| {
      assert es[..m] == es;
    } else {
      assert es[..|es| - 1][..m] == es[..m] && es[..m + 1][..m] == es[..m];
      if m == |es| - 1 {
        assert es[..m + 1] == es;
      } else {
        assert es[..|es| - 1][..m + 1] == es[..m + 1];
      }
      Prefix(es[..|es| - 1], m);
    }
  }

  /** An error of either worker, and any other way for one to stop, brings down the exchange: at any
      later point of any run, the loop has left it, can leave it, or can after one enabled step. */
  lemma ErrorEndsExchange(es: seq<Event>, m: nat, k: nat)
    requires After(es).Some? && m < |es| && Stops(es[m], k)
    ensures k < |After(es).value.conns|
    ensures After(es).value.loop == Exchanging(k) ==> Waking(After(es).value, k)
  {
    Prefix(es, m);
    Prefix(es, m + 1);
    ErrorNeverSwallowed(es, m + 1, k);
  }

  /** A worker that stopped. */
  predicate Ended(c: Conn, reading: bool) {
    if reading then c.reader.RFailed? || c.reader.RReturning? || c.reader.RDone?
    else c.writer.WFailed? || c.writer.WReturning? || c.writer.WDone?
  }

  lemma EndedStays(s: State, ev: Event, k: nat, reading: bool)
    requires Enabled(s, ev) && k < |s.conns| && Ended(s.conns[k], reading)
    ensures k < |Next(s, ev).conns| && Ended(Next(s, ev).conns[k], reading)
  {
  }

  lemma {:induction false} EndedPersists(es: seq<Event>, m: nat, k: nat, reading: bool)
    requires After(es).Some? && m <= |es| && After(es[..m]).Some?
    requires k < |After(es[..m]).value.conns| && Ended(After(es[..m]).value.conns[k], reading)
    ensures k < |After(es).value.conns| && Ended(After(es).value.conns[k], reading)
  {
    if m == |es| {
      assert es[..m] == es;
    } else {
      var es' := es[..|es| - 1];
      assert es'[..m] == es[..m];
      EndedPersists(es', m, k, reading);
      EndedStays(After(es').value, es[|es| - 1], k, reading);
    }
  }

  /** Once `es[m]` stopped a worker, it is off. */
  lemma StoppedIsEnded(es: seq<Event>, m: nat, k: nat)
    requires After(es).Some? && m < |es| && Stops(es[m], k)
    ensures k < |After(es).value.conns| && Ended(After(es).value.conns[k], es[m].Read?)
  {
    Prefix(es, m);
    Prefix(es, m + 1);
    EndedPersists(es, m + 1, k, es[m].Read?);
  }

  /** A worker that stopped never uses its connection again: all that it still does is its close. */
  lemma StoppedWorkerIsOff(es: seq<Event>, m: nat, i: nat, k: nat)
    requires After(es).Some? && m < i < |es| && Stops(es[m], k)
    ensures es[m].Read? && es[i].Read? && es[i].k == k ==> es[i].ra == RClose
    ensures es[m].Write? && es[i].Write? && es[i].k == k ==> es[i].wa == WClose
  {
    Prefix(es, i);
    StoppedIsEnded(es[..i], m, k);
  }

  /** Once closed, the exchange being waited on ends by itself, with at most two worker steps, unless
      its writer is inside conn.WriteTo. */
  lemma CloseEndsExchange(s: State, k: nat)
    requires s.closed && k < |s.conns| && s.loop == Exchanging(k) && !s.conns[k].writer.WHolding?
    ensures
      || Waking(s, k)
      || (Enabled(s, Write(k, WStop)) && Waking(Next(s, Write(k, WStop)), k))
  {
  }

  /** Once closed, and once the other worker has something to say, a worker in its select can stop, and
      a reader there cannot go on reading. */
  lemma WorkersCanStop(s: State, k: nat)
    requires k < |s.conns|
    ensures var c := s.conns[k];
      && (c.reader.RSelect? && (s.closed || WriterSpeaks(c)) ==>
            !Enabled(s, Read(k, RGo)) && (Enabled(s, Read(k, RStop)) || Enabled(s, Read(k, RHear))))
      && (c.reader.RSelect? && s.closed ==> Enabled(s, Read(k, RStop)))
      && (c.writer.WSelect? && (s.closed || ReaderSpeaks(c)) ==>
            Enabled(s, Write(k, WStop)) || Enabled(s, Write(k, WHear)))
  {
  }

  lemma {:induction false} StaysClosed(es: seq<Event>, m: nat)
    requires After(es).Some? && m <= |es| && After(es[..m]).Some? && After(es[..m]).value.closed
    ensures After(es).value.closed
  {
    if m == |es| {
      assert es[..m] == es;
    } else {
      assert es[..|es| - 1][..m] == es[..m];
      StaysClosed(es[..|es| - 1], m);
    }
  }

  /** After the close no reader begins another read, on any connection. */
  lemma NoReadAfterClose(es: seq<Event>, m: nat, i: nat, k: nat)
    requires After(es).Some? && m <= i < |es| && After(es[..m]).Some? && After(es[..m]).value.closed
    ensures es[i] != Read(k, RGo)
  {
    Prefix(es, i);
    assert es[..i][..m] == es[..m];
    StaysClosed(es[..i], m);
  }

  /** The error channels are unbuffered and each error is sent once: a worker stays blocked in its send
      until the other worker or the loop receives, and that one receive sends it on its way. */
  lemma ErrorReceivedOnce(s: State, ev: Event, k: nat)
    requires Enabled(s, ev) && k < |s.conns|
    ensures s.conns[k].reader.RFailed? ==>
      Next(s, ev).conns[k].reader ==
        if ev == Write(k, WHear) || (ev == WakeByReader && s.loop == Exchanging(k)) then RReturning else RFailed
    ensures s.conns[k].writer.WFailed? ==>
      Next(s, ev).conns[k].writer ==
        if ev == Read(k, RHear) || (ev == WakeByWriter && s.loop == Exchanging(k)) then WReturning else WFailed
  {
  }

  // ----- what the events put into the state -----

  /** What connection `k` received. */
  function GotBy(es: seq<Event>, k: nat): seq<Bytes> {
    if es == [] then []
    else
      var ev := es[|es| - 1];
      GotBy(es[..|es| - 1], k) + if ev.Read? && ev.k == k && ev.ra.RGot? then [ev.ra.x] else []
  }

  /** What WriteTo was called with. */
  function WrittenBy(es: seq<Event>): seq<Bytes> {
    if es == [] then []
    else WrittenBy(es[..|es| - 1]) + if es[|es| - 1].WriteTo? then [es[|es| - 1].p] else []
  }

  /** The connections whose workers took a packet from the send queue. */
  function TakersBy(es: seq<Event>): seq<nat> {
    if es == [] then []
    else
      var ev := es[|es| - 1];
      TakersBy(es[..|es| - 1]) + if ev.Write? && ev.wa.WTake? then [ev.k] else []
  }

  function Count(es: seq<Event>, ev: Event): nat {
    if es == [] then 0 else Count(es[..|es| - 1], ev) + if es[|es| - 1] == ev then 1 else 0
  }

  /** The queues were offered what was written and received, and gave one packet to each taker. */
  ghost predicate QueuesRecord(s: State, es: seq<Event>) {
    && Offers(s.sendQueue.history) == WrittenBy(es)
    && s.takers == TakersBy(es)
    && |Received(s.recvQueue.history)| == Count(es, ReadFrom)
  }

  /** Every connection's record is that of its events. */
  ghost predicate ConnRecords(c: Conn, es: seq<Event>, k: nat) {
    c.got == GotBy(es, k) && |c.wrote| == Count(es, Write(k, WSend(true))) + Count(es, Write(k, WSend(false)))
  }

  ghost predicate ConnsRecord(conns: seq<Conn>, es: seq<Event>) {
    && (forall k :: 0 <= k < |conns| ==> ConnRecords(conns[k], es, k))
    && (forall k: nat :: |conns| <= k ==> ConnRecords(Conn(RSelect, WSelect, [], []), es, k))
  }

  /** Connections are dialed one at a time, each closed before the next; the loop stops only when the
      connection is closed, by a caller or by a failed dial. */
  ghost predicate LoopRecords(s: State, es: seq<Event>) {
    && (s.closed <==> Close in es || Dial(false) in es)
    && |s.conns| == Count(es, Dial(true))
    && |s.conns| == Count(es, CloseConn) + (if s.loop.Exchanging? || s.loop.Leaving? then 1 else 0)
    && (s.loop.Exchanging? || s.loop.Leaving? ==> s.loop.k == |s.conns| - 1)
    && (s.loop.Stopped? ==> s.closed)
  }

  lemma RecordSnoc(es: seq<Event>, ev: Event)
    ensures WrittenBy(es + [ev]) == WrittenBy(es) + if ev.WriteTo? then [ev.p] else []
    ensures TakersBy(es + [ev]) == TakersBy(es) + if ev.Write? && ev.wa.WTake? then [ev.k] else []
    ensures Count(es + [ev], ReadFrom) == Count(es, ReadFrom) + if ev == ReadFrom then 1 else 0
  {
    assert (es + [ev])[..|es|] == es;
  }

  lemma SendRecordStep(s: State, ev: Event)
    requires Valid(s.sendQueue) && Enabled(s, ev)
    ensures Offers(Next(s, ev).sendQueue.history) ==
      Offers(s.sendQueue.history) + if ev.WriteTo? then [ev.p] else []
    ensures Next(s, ev).takers == s.takers + if ev.Write? && ev.wa.WTake? then [ev.k] else []
  {
    if ev.WriteTo? {
      OfferValid(s.sendQueue, ev.p);
    } else if ev.Write? && ev.wa.WTake? {
      TakeValid(s.sendQueue);
    }
  }

  lemma ReceiveRecordStep(s: State, ev: Event)
    requires Valid(s.recvQueue) && Enabled(s, ev)
    ensures |Received(Next(s, ev).recvQueue.history)| ==
      |Received(s.recvQueue.history)| + if ev == ReadFrom then 1 else 0
  {
    if ev.ReadFrom? {
      TakeValid(s.recvQueue);
    } else if ev.Read? && ev.ra.ROffer? {
      OfferValid(s.recvQueue, Tagged(ev.k, s.conns[ev.k].reader.p));
    }
  }

  lemma QueuesRecordStep(s: State, es: seq<Event>, ev: Event)
    requires Valid(s.sendQueue) && Valid(s.recvQueue) && Enabled(s, ev) && QueuesRecord(s, es)
    ensures QueuesRecord(Next(s, ev), es + [ev])
  {
    RecordSnoc(es, ev);
    SendRecordStep(s, ev);
    ReceiveRecordStep(s, ev);
  }

  lemma ConnRecordsStep(s: State, es: seq<Event>, ev: Event, k: nat)
    requires Enabled(s, ev) && ConnsRecord(s.conns, es)
    ensures k < |Next(s, ev).conns| ==> ConnRecords(Next(s, ev).conns[k], es + [ev], k)
    ensures k >= |Next(s, ev).conns| ==> ConnRecords(Conn(RSelect, WSelect, [], []), es + [ev], k)
  {
    assert (es + [ev])[..|es|] == es;
    if k < |s.conns| {
      assert ConnRecords(s.conns[k], es, k);
    } else {
      assert ConnRecords(Conn(RSelect, WSelect, [], []), es, k);
    }
  }

  lemma ConnsRecordStep(s: State, es: seq<Event>, ev: Event)
    requires Enabled(s, ev) && ConnsRecord(s.conns, es)
    ensures ConnsRecord(Next(s, ev).conns, es + [ev])
  {
    forall k: nat
      ensures k < |Next(s, ev).conns| ==> ConnRecords(Next(s, ev).conns[k], es + [ev], k)
      ensures k >= |Next(s, ev).conns| ==> ConnRecords(Conn(RSelect, WSelect, [], []), es + [ev], k)
    {
      ConnRecordsStep(s, es, ev, k);
    }
  }

  lemma LoopRecordsStep(s: State, es: seq<Event>, ev: Event)
    requires LoopRecords(s, es) && Enabled(s, ev)
    ensures LoopRecords(Next(s, ev), es + [ev])
  {
    assert (es + [ev])[..|es|] == es;
  }

  /** In every run the records that the other theorems speak of are those of the calls and steps made. */
  lemma {:induction false} RecordsAlways(es: seq<Event>)
    requires After(es).Some?
    ensures var s := After(es).value; QueuesRecord(s, es) && ConnsRecord(s.conns, es) && LoopRecords(s, es)
  {
    if es == [] {
    } else {
      var n := |es| - 1;
      var s := After(es[..n]).value;
      RecordsAlways(es[..n]);
      assert Valid(s.sendQueue) && Valid(s.recvQueue) by { TrafficAlways(es[..n]); }
      assert es[..n] + [es[n]] == es;
      QueuesRecordStep(s, es[..n], es[n]);
      ConnsRecordStep(s, es[..n], es[n]);
      LoopRecordsStep(s, es[..n], es[n]);
    }
  }

  /** After a failed dial, and after a turn of the loop that finds the connection closed, there is no
      further dial: the loop has stopped for good. */
  lemma {:induction false} LoopStops(es: seq<Event>, m: nat)
    requires After(es).Some? && m < |es| && After(es[..m]).Some?
    requires es[m] == Dial(false) || (es[m] == Check && After(es[..m]).value.closed)
    ensures After(es).value.loop == Stopped
  {
    if m == |es| - 1 {
    } else {
      assert es[..|es| - 1][..m] == es[..m];
      LoopStops(es[..|es| - 1], m);
    }
  }

  /** While nobody closes the connection, the loop that left an exchange dials again. */
  lemma DialsAgain(s: State, k: nat)
    requires s.loop == Leaving(k) && !s.closed
    ensures Enabled(s, CloseConn)
    ensures var s1 := Next(s, CloseConn);
      && Enabled(s1, Check)
      && var s2 := Next(s1, Check);
         && Enabled(s2, Dial(true))
         && Next(s2, Dial(true)).loop == Exchanging(|s.conns|)
         && Next(s2, Dial(true)).conns == s.conns + [Conn(RSelect, WSelect, [], [])]
  {
  }

  // ----- packets get through -----

  /** On an open connection without a fault, a packet that arrives goes into the receive queue. */
  lemma PacketComesIn(s: State, k: nat, x: Bytes)
    requires k < |s.conns| && s.conns[k].reader.RSelect? && !s.closed && !WriterSpeaks(s.conns[k])
    requires |s.recvQueue.items| < 32
    ensures Enabled(s, Read(k, RGo))
    ensures var s1 := Next(s, Read(k, RGo));
      && Enabled(s1, Read(k, RGot(x)))
      && var s2 := Next(s1, Read(k, RGot(x)));
         && Enabled(s2, Read(k, ROffer))
         && var s3 := Next(s2, Read(k, ROffer));
            s3.recvQueue.items == s.recvQueue.items + [Tagged(k, Cut(x))] && s3.conns[k].reader.RSelect?
  {
  }

  /** A packet in the send queue can be taken by any worker in its select, and is then written. */
  lemma PacketGoesOut(s: State, k: nat, ok: bool)
    requires k < |s.conns| && s.conns[k].writer.WSelect? && s.sendQueue.items != []
    ensures Enabled(s, Write(k, WTake))
    ensures var s1 := Next(s, Write(k, WTake));
      && Enabled(s1, Write(k, WSend(ok)))
      && var s2 := Next(s1, Write(k, WSend(ok)));
         && s2.conns[k].wrote == s.conns[k].wrote + [s.sendQueue.items[0]]
         && s2.sendQueue.items == s.sendQueue.items[1..] && (ok ==> s2.conns[k].writer.WSelect?)
  {
  }
}
