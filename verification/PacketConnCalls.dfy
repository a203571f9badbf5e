/** The calls of a packet connection (QueuePacketConn and RedialPacketConn share them: close once
    and remember why, read in two selects, write and queue only while open), interleaved in any
    order by any number of goroutines. A step is one atomic action of one goroutine. */
module PacketConnCalls {
  import opened Bytes
  import opened LossyQueue
  import opened Wrappers

  /** `Given` errors come from the caller; a nil error becomes "operation on closed connection". */
  datatype Error = ClosedConn | Given(code: nat)

  function OrDefault(e: Option<Error>): Error {
    if e.None? then ClosedConn else e.value
  }

  /** A packet and the address it came from: taggedPacket. */
  datatype Packet = Packet(p: Bytes, from: nat)

  datatype Op = Close(e: Option<Error>) | Read(room: nat) | Write(p: Bytes) | Incoming(packet: Packet)

  /** Where a goroutine is inside its call. `late` says the connection was already closed when the
      call began; the code never looks at it. */
  datatype Thread =
    | Closing(e: Option<Error>)         // about to call closeOnce.Do
    | InsideOnce                        // running the function given to Do
    | ReadCalled(room: nat, late: bool) // before the first select, with a buffer of `room` bytes
    | ReadWaiting(room: nat, late: bool) // in the second select
    | WriteCalled(p: Bytes, late: bool) // before the select on closed
    | WriteChecked(p: Bytes, late: bool)
    | IncomingCalled(packet: Packet, late: bool)
    | IncomingChecked(packet: Packet, late: bool)

  /** sync.Once and how far the function it runs has come; the ones inside name the goroutine. */
  datatype Once = Fresh | Entered(t: nat, e: Error) | Stored(t: nat, e: Error) | Shut(t: nat, e: Error) | Done(e: Error)

  datatype Outcome =
    | CloseNil
    | CloseFailed(e: Error)
    | ReadFailed(e: Error)
    | ReadGot(packet: Packet, room: nat, got: Bytes, from: nat, late: bool)
    | WriteFailed(e: Error)
    | WriteTaken(n: nat, late: bool)
    | IncomingDone

  datatype State = State(
    once: Once,
    err: Option<Error>,        // the atomic.Value
    closed: bool,              // whether the channel `closed` is closed
    recvQueue: Queue<Packet>,
    threads: map<nat, Thread>,
    log: seq<Outcome>,          // what the calls returned, in order
    panicked: bool)            // whether an error was loaded before one was stored

  const INIT := State(Fresh, None, false, Empty(), map[], [], false)

  datatype Event = Call(t: nat, op: Op) | Step(t: nat, takePacket: bool)

  predicate Enabled(s: State, ev: Event) {
    match ev
    case Call(t, op) => t !in s.threads
    case Step(t, takePacket) =>
      t in s.threads &&
      match s.threads[t]
      case Closing(_) => s.once.Fresh? || s.once.Done?  // Do blocks while another runs it
      case ReadWaiting(_, _) => if takePacket then s.recvQueue.items != [] else s.closed
      case _ => true
  }

  function Return(s: State, t: nat, r: Outcome): State {
    s.(threads := s.threads - {t}, log := s.log + [r])
  }

  function Goto(s: State, t: nat, th: Thread): State {
    s.(threads := s.threads[t := th])
  }

  /** Return the error that `c.err.Load().(error)` yields; on an empty value that panics. */
  function ReturnError(s: State, t: nat, wrap: Error -> Outcome): State {
    if s.err.None? then s.(panicked := true, threads := s.threads - {t})
    else Return(s, t, wrap(s.err.value))
  }

  function Begin(s: State, t: nat, op: Op): State {
    match op
    case Close(e) => Goto(s, t, Closing(e))
    case Read(room) => Goto(s, t, ReadCalled(room, s.closed))
    case Write(p) => Goto(s, t, WriteCalled(p, s.closed))
    case Incoming(packet) => Goto(s, t, IncomingCalled(packet, s.closed))
  }

  /** The actions of closeWithError, in its own order: store the error, then close the channel. */
  function StepInsideOnce(s: State, t: nat): State {
    match s.once
    case Entered(u, e) => s.(err := Some(e), once := Stored(u, e))
    case Stored(u, e) => s.(closed := true, once := Shut(u, e))
    case Shut(u, e) => Return(s.(once := Done(e)), t, CloseNil)
    case _ => s
  }

  function Next(s: State, ev: Event): State
    requires Enabled(s, ev)
  {
    match ev
    case Call(t, op) => Begin(s, t, op)
    case Step(t, takePacket) =>
      match s.threads[t]
      case Closing(e) =>
        if s.once.Fresh? then Goto(s, t, InsideOnce).(once := Entered(t, OrDefault(e)))
        else ReturnError(s, t, e => CloseFailed(e))
      case InsideOnce => StepInsideOnce(s, t)
      case ReadCalled(room, late) =>
        if s.closed then ReturnError(s, t, e => ReadFailed(e)) else Goto(s, t, ReadWaiting(room, late))
      case ReadWaiting(room, late) =>
        if takePacket then
          var packet := s.recvQueue.items[0];
          var got := ReadGot(packet, room, FirstBytes(packet.p, room), packet.from, late);
          Return(s.(recvQueue := Take(s.recvQueue)), t, got)
        else ReturnError(s, t, e => ReadFailed(e))
      case WriteCalled(p, late) =>
        if s.closed then ReturnError(s, t, e => WriteFailed(e)) else Goto(s, t, WriteChecked(p, late))
      case WriteChecked(p, late) => Return(s, t, WriteTaken(|p|, late))
      case IncomingCalled(packet, late) =>
        if s.closed then Return(s, t, IncomingDone) else Goto(s, t, IncomingChecked(packet, late))
      case IncomingChecked(packet, late) => Return(s.(recvQueue := Offer(s.recvQueue, packet)), t, IncomingDone)
  }

  // ----- runs -----

  /** The state after a run, if every event of it was enabled when it came. */
  ghost function After(es: seq<Event>): Option<State> {
    if es == [] then Some(INIT)
    else
      match After(es[..|es| - 1])
      case None => None
      case Some(s) => if Enabled(s, es[|es| - 1]) then Some(Next(s, es[|es| - 1])) else None
  }

  // ----- what every reachable state satisfies -----

  /** The error the first close chose. */
  function Chosen(once: Once): Option<Error> {
    if once.Fresh? then None else Some(once.e)
  }

  /** The stored error and the closed flag say exactly how far the one closing has come. */
  ghost predicate CloseState(s: State) {
    && !s.panicked
    && s.err == (if s.once.Stored? || s.once.Shut? || s.once.Done? then Some(s.once.e) else None)
    && s.closed == (s.once.Shut? || s.once.Done?)
    && (forall t :: t in s.threads && s.threads[t].InsideOnce? ==>
          (s.once.Entered? || s.once.Stored? || s.once.Shut?) && s.once.t == t)
  }

  /** Goroutines that began after the close are still before their check of `closed`. */
  ghost predicate LateCalls(s: State) {
    forall t :: t in s.threads ==>
      match s.threads[t]
      case ReadCalled(_, late) => late ==> s.closed
      case WriteCalled(_, late) => late ==> s.closed
      case IncomingCalled(_, late) => late ==> s.closed
      case ReadWaiting(_, late) => !late
      case WriteChecked(_, late) => !late
      case IncomingChecked(_, late) => !late
      case _ => true
  }

  /** What one return promises, given the error the first close chose. */
  predicate Honest(r: Outcome, chosen: Option<Error>) {
    match r
    case CloseFailed(e) => chosen == Some(e)
    case ReadFailed(e) => chosen == Some(e)
    case WriteFailed(e) => chosen == Some(e)
    case ReadGot(packet, room, got, from, late) =>
      && !late && from == packet.from
      && got <= packet.p && |got| == (if |packet.p| < room then |packet.p| else room)
    case WriteTaken(_, late) => !late
    case _ => true
  }

  ghost predicate HonestLog(s: State) {
    forall r :: r in s.log ==> Honest(r, Chosen(s.once))
  }

  function CountNil(log: seq<Outcome>): nat {
    if log == [] then 0 else CountNil(log[..|log| - 1]) + if log[|log| - 1].CloseNil? then 1 else 0
  }

  /** The packets the reads returned, in order. */
  function Delivered(log: seq<Outcome>): seq<Packet> {
    if log == [] then []
    else Delivered(log[..|log| - 1]) + if log[|log| - 1].ReadGot? then [log[|log| - 1].packet] else []
  }

  /** The queue is lawful and the reads returned what left it, in order. */
  ghost predicate QueueState(s: State) {
    Valid(s.recvQueue) && Delivered(s.log) == Received(s.recvQueue.history)
  }

  /** One close returned nil if the connection is closed for good, none before. */
  ghost predicate Counts(s: State) {
    && CountNil(s.log) == (if s.once.Done? then 1 else 0)
    && ((exists r :: r in s.log && r.CloseFailed?) ==> s.once.Done?)
  }

  ghost predicate Inv(s: State) {
    && CloseState(s)
    && LateCalls(s)
    && HonestLog(s)
    && Counts(s)
    && QueueState(s)
  }

  lemma CloseStateStep(s: State, ev: Event)
    requires CloseState(s) && Enabled(s, ev)
    ensures CloseState(Next(s, ev))
  {
  }

  lemma LateCallsStep(s: State, ev: Event)
    requires CloseState(s) && LateCalls(s) && Enabled(s, ev)
    ensures LateCalls(Next(s, ev))
  {
  }

  /** A step logs at most one return, and once an error is chosen it stays chosen. */
  lemma LogStep(s: State, ev: Event)
    requires CloseState(s) && LateCalls(s) && HonestLog(s) && Enabled(s, ev)
    ensures var s' := Next(s, ev);
      && (Chosen(s.once).Some? ==> Chosen(s'.once) == Chosen(s.once))
      && (s'.log == s.log || exists r :: s'.log == s.log + [r] && Honest(r, Chosen(s'.once)))
    ensures HonestLog(Next(s, ev))
  {
  }

  /** A step logs at most one return, which tells what happened to the queue and to the close. */
  lemma StepShape(s: State, ev: Event) returns (logged: Option<Outcome>, offered: Packet)
    requires CloseState(s) && Enabled(s, ev)
    ensures var s' := Next(s, ev);
      && s'.log == s.log + (if logged.Some? then [logged.value] else [])
      && (logged == Some(CloseNil) <==> s'.once.Done? && !s.once.Done?)
      && (s.once.Done? ==> s'.once.Done?)
      && (logged.Some? && logged.value.CloseFailed? ==> s'.once.Done?)
      && if logged.Some? && logged.value.ReadGot? then
           && s.recvQueue.items != [] && logged.value.packet == s.recvQueue.items[0]
           && s'.recvQueue == Take(s.recvQueue)
         else
           s'.recvQueue == s.recvQueue || s'.recvQueue == Offer(s.recvQueue, offered)
  {
    var s' := Next(s, ev);
    logged := if |s'.log| > |s.log| then Some(s'.log[|s.log|]) else None;
    offered := if ev.Step? && s.threads[ev.t].IncomingChecked? then s.threads[ev.t].packet else Packet([], 0);
  }

  lemma LogSnoc(log: seq<Outcome>, r: Outcome)
    ensures CountNil(log + [r]) == CountNil(log) + if r.CloseNil? then 1 else 0
    ensures Delivered(log + [r]) == Delivered(log) + if r.ReadGot? then [r.packet] else []
  {
  }

  lemma CountsStep(s: State, ev: Event)
    requires CloseState(s) && Counts(s) && Enabled(s, ev)
    ensures Counts(Next(s, ev))
  {
    var logged, _ := StepShape(s, ev);
    if logged.Some? {
      LogSnoc(s.log, logged.value);
    }
  }

  lemma QueueStep(s: State, ev: Event)
    requires CloseState(s) && QueueState(s) && Enabled(s, ev)
    ensures QueueState(Next(s, ev))
  {
    var logged, offered := StepShape(s, ev);
    var q := s.recvQueue;
    if logged.Some? {
      LogSnoc(s.log, logged.value);
    }
    if logged.Some? && logged.value.ReadGot? {
      TakeValid(q);
    } else if Next(s, ev).recvQueue != q {
      OfferValid(q, offered);
    }
  }

  /** Every state that any interleaving reaches satisfies the invariant: no error is loaded before
      one is stored, every call that fails reports the error of the first close, exactly one close
      returns nil, no read or write that began after the close succeeds, and the packets read are,
      in order and each once, those that found room in the queue, with the addresses they came from. */
  lemma {:induction false} InvAlways(es: seq<Event>)
    requires After(es).Some?
    ensures Inv(After(es).value)
  {
    if es == [] {
    } else {
      var s := After(es[..|es| - 1]).value;
      var ev := es[|es| - 1];
      InvAlways(es[..|es| - 1]);
      CloseStateStep(s, ev);
      LateCallsStep(s, ev);
      LogStep(s, ev);
      CountsStep(s, ev);
      QueueStep(s, ev);
    }
  }

  /** Once closed, a connection stays closed, with the same error, however the run goes on. */
  lemma {:induction false} ClosedForGood(es: seq<Event>, k: nat)
    requires After(es).Some? && k <= |es|
    ensures After(es[..k]).Some?
    ensures After(es[..k]).value.closed ==> After(es).value.closed && After(es).value.err == After(es[..k]).value.err
  {
    if k == |es| {
      assert es[..k] == es;
    } else {
      ClosedForGood(es[..|es| - 1], k);
      assert es[..|es| - 1][..k] == es[..k];
      InvAlways(es[..|es| - 1]);
      InvAlways(es);
      LogStep(After(es[..|es| - 1]).value, es[|es| - 1]);
    }
  }

  lemma OthersStayPut(s: State, ev: Event, t: nat)
    requires Enabled(s, ev) && ev.t != t && t in s.threads
    ensures t in Next(s, ev).threads && Next(s, ev).threads[t] == s.threads[t]
  {
  }

  /** Between its own steps a goroutine stays where it is. */
  lemma {:induction false} StaysPut(es: seq<Event>, k: nat, t: nat)
    requires After(es).Some? && k <= |es| && forall m :: k <= m < |es| ==> es[m].t != t
    ensures After(es[..k]).Some?
    ensures t in After(es[..k]).value.threads ==>
      t in After(es).value.threads && After(es).value.threads[t] == After(es[..k]).value.threads[t]
  {
    if k == |es| {
      assert es[..k] == es;
    } else {
      StaysPut(es[..|es| - 1], k, t);
      assert es[..|es| - 1][..k] == es[..k];
      if t in After(es[..k]).value.threads {
        OthersStayPut(After(es[..|es| - 1]).value, es[|es| - 1], t);
      }
    }
  }

  lemma ReadBegins(es: seq<Event>, t: nat, room: nat)
    requires After(es).Some? && es != [] && es[|es| - 1] == Call(t, Read(room))
    ensures t in After(es).value.threads && After(es).value.threads[t].ReadCalled?
  {
  }

  /** Until its first step a read is where its call put it. */
  lemma ReadNotBegun(es: seq<Event>, i: nat, t: nat, room: nat)
    requires After(es).Some? && i < |es| && es[i] == Call(t, Read(room))
    requires forall m :: i < m < |es| ==> es[m].t != t
    ensures t in After(es).value.threads && After(es).value.threads[t].ReadCalled?
  {
    StaysPut(es, i + 1, t);
    ReadBegins(es[..i + 1], t, room);
  }

  lemma ReadFailsWhenClosed(s: State, t: nat, take: bool)
    requires t in s.threads && s.threads[t].ReadCalled? && s.closed && s.err.Some?
    ensures Enabled(s, Step(t, take)) && Next(s, Step(t, take)).log == s.log + [ReadFailed(s.err.value)]
  {
  }

  /** A read called on a closed connection fails at its first step, however late that comes, with the
      error of the first close. */
  lemma LateReadFails(es: seq<Event>, i: nat, t: nat, room: nat, take: bool)
    requires After(es).Some? && i < |es| && es[i] == Call(t, Read(room))
    requires After(es[..i]).Some? && After(es[..i]).value.closed
    requires forall m :: i < m < |es| ==> es[m].t != t
    ensures var s := After(es).value;
      && Enabled(s, Step(t, take)) && After(es[..i]).value.err.Some?
      && Next(s, Step(t, take)).log == s.log + [ReadFailed(After(es[..i]).value.err.value)]
  {
    var before, s := After(es[..i]).value, After(es).value;
    assert before.err.Some? by { InvAlways(es[..i]); }
    assert s.closed && s.err == before.err by { ClosedForGood(es, i); }
    ReadNotBegun(es, i, t, room);
    ReadFailsWhenClosed(s, t, take);
  }

  // ----- what the calls come to -----

  /** A call under way, as its caller sees it: the operation, whether the connection was closed when it
      began, and whether it got past its first look at the connection. */
  datatype Doing = Doing(op: Op, late: bool, passed: bool)

  /** What a goroutine that was doing `d` does after an event of its own. A close gets past its first
      look if no other came before it, and is over when it has shut the channel; the other calls get
      past it if the connection is still open then, and are over with the step after it. */
  function Moved(d: Option<Doing>, s: State, ev: Event): Option<Doing> {
    match ev
    case Call(_, op) => Some(Doing(op, s.closed, false))
    case Step(_, _) =>
      if d.None? then None
      else if d.value.op.Close? then
        if s.once.Fresh? || (d.value.passed && !s.closed) then Some(d.value.(passed := true)) else None
      else if d.value.passed || s.closed then None
      else Some(d.value.(passed := true))
  }

  /** What goroutine `t` is doing after a run. */
  ghost function Under(es: seq<Event>, t: nat): Option<Doing>
    requires After(es).Some?
  {
    if es == [] then None
    else
      var es', ev := es[..|es| - 1], es[|es| - 1];
      if ev.t == t then Moved(Under(es', t), After(es').value, ev) else Under(es', t)
  }

  /** Where a goroutine that does `d` is in the code. */
  function At(d: Doing): Thread {
    match d.op
    case Close(e) => if d.passed then InsideOnce else Closing(e)
    case Read(room) => if d.passed then ReadWaiting(room, d.late) else ReadCalled(room, d.late)
    case Write(p) => if d.passed then WriteChecked(p, d.late) else WriteCalled(p, d.late)
    case Incoming(packet) => if d.passed then IncomingChecked(packet, d.late) else IncomingCalled(packet, d.late)
  }

  ghost predicate Follows(s: State, t: nat, d: Option<Doing>) {
    if t in s.threads then d.Some? && s.threads[t] == At(d.value) else d == None
  }

  lemma FollowsStep(s: State, ev: Event, d: Option<Doing>)
    requires CloseState(s) && Enabled(s, ev) && Follows(s, ev.t, d)
    ensures Follows(Next(s, ev), ev.t, Moved(d, s, ev))
  {
  }

  lemma OthersFollow(s: State, ev: Event, t: nat, d: Option<Doing>)
    requires Enabled(s, ev) && ev.t != t && Follows(s, t, d)
    ensures Follows(Next(s, ev), t, d)
  {
  }

  /** Every goroutine is where its call has brought it, with the arguments of that call. */
  lemma {:induction false} ThreadsFollowCalls(es: seq<Event>, t: nat)
    requires After(es).Some?
    ensures Follows(After(es).value, t, Under(es, t))
  {
    if es == [] {
    } else {
      var es', ev := es[..|es| - 1], es[|es| - 1];
      var s := After(es').value;
      ThreadsFollowCalls(es', t);
      if ev.t == t {
        assert CloseState(s) by { InvAlways(es'); }
        FollowsStep(s, ev, Under(es', t));
      } else {
        OthersFollow(s, ev, t, Under(es', t));
      }
    }
  }

  /** What is there for a step of a call to return. */
  ghost predicate Returnable(d: Doing, s: State, takePacket: bool) {
    && (s.closed || (d.op.Close? && !d.passed && !s.once.Fresh?) ==> s.err.Some?)
    && (d.op.Read? && d.passed ==> if takePacket then s.recvQueue.items != [] else s.closed)
  }

  /** What a step of a call returns to its caller, if it is the last, on a connection in state `s`. */
  ghost function Result(d: Doing, s: State, takePacket: bool): Option<Outcome>
    requires Returnable(d, s, takePacket)
  {
    match d.op
    case Close(_) =>
      if d.passed then if s.closed then Some(CloseNil) else None
      else if s.once.Fresh? then None else Some(CloseFailed(s.err.value))
    case Incoming(_) => if d.passed || s.closed then Some(IncomingDone) else None
    case Write(p) =>
      if d.passed then Some(WriteTaken(|p|, d.late)) else if s.closed then Some(WriteFailed(s.err.value)) else None
    case Read(room) =>
      if d.passed && takePacket then
        var packet := s.recvQueue.items[0];
        Some(ReadGot(packet, room, FirstBytes(packet.p, room), packet.from, d.late))
      else if s.closed then Some(ReadFailed(s.err.value)) else None
  }

  /** From `s` to `s'` the call `d` returned what it should, its packet was offered if it is a
      QueueIncoming that found the connection open, and a packet was taken if it is a read that
      returns one. */
  ghost predicate Returns(d: Doing, s: State, takePacket: bool, s': State) {
    && Returnable(d, s, takePacket)
    && var r := Result(d, s, takePacket);
       && s'.log == s.log + (if r.Some? then [r.value] else [])
       && s'.recvQueue ==
            if d.op.Incoming? && d.passed then Offer(s.recvQueue, d.op.packet)
            else if d.op.Read? && d.passed && takePacket then Take(s.recvQueue)
            else s.recvQueue
  }

  lemma ThreadReturns(s: State, t: nat, takePacket: bool, d: Doing)
    requires CloseState(s) && Enabled(s, Step(t, takePacket)) && s.threads[t] == At(d)
    ensures Returns(d, s, takePacket, Next(s, Step(t, takePacket)))
  {
  }

  /** What an event of a goroutine that was doing `d` does to log and queue. */
  ghost predicate Answered(d: Option<Doing>, s: State, ev: Event, s': State) {
    match ev
    case Call(_, _) => s'.log == s.log && s'.recvQueue == s.recvQueue
    case Step(_, takePacket) => d.Some? && Returns(d.value, s, takePacket, s')
  }

  lemma EventAnswered(s: State, ev: Event, d: Option<Doing>)
    requires CloseState(s) && Enabled(s, ev) && Follows(s, ev.t, d)
    ensures Answered(d, s, ev, Next(s, ev))
  {
    match ev
    case Call(_, _) =>
    case Step(t, takePacket) => ThreadReturns(s, t, takePacket, d.value);
  }

  /** In every run each step returns what the call it belongs to should, and only such steps touch the
      queue. */
  lemma StepReturns(es: seq<Event>)
    requires After(es).Some? && es != []
    ensures var es', ev := es[..|es| - 1], es[|es| - 1];
      Answered(Under(es', ev.t), After(es').value, ev, After(es).value)
  {
    var es', ev := es[..|es| - 1], es[|es| - 1];
    ThreadsFollowCalls(es', ev.t);
    assert CloseState(After(es').value) by { InvAlways(es'); }
    EventAnswered(After(es').value, ev, Under(es', ev.t));
  }

  /** The packet that an event of a goroutine that was doing `d` brings to the queue. */
  function Brings(d: Option<Doing>, ev: Event): seq<Packet> {
    if ev.Step? && d.Some? && d.value.op.Incoming? && d.value.passed then [d.value.op.packet] else []
  }

  /** The packets of the QueueIncoming calls that found the connection open, in the order they got to
      the queue. */
  ghost function OfferedBy(es: seq<Event>): seq<Packet>
    requires After(es).Some?
  {
    if es == [] then []
    else OfferedBy(es[..|es| - 1]) + Brings(Under(es[..|es| - 1], es[|es| - 1].t), es[|es| - 1])
  }

  lemma AnsweredOffers(d: Option<Doing>, s: State, ev: Event, s': State)
    requires Valid(s.recvQueue) && Answered(d, s, ev, s')
    ensures Offers(s'.recvQueue.history) == Offers(s.recvQueue.history) + Brings(d, ev)
  {
    if ev.Step? && d.value.op.Incoming? && d.value.passed {
      OfferValid(s.recvQueue, d.value.op.packet);
    } else if ev.Step? && d.value.op.Read? && d.value.passed && ev.takePacket {
      TakeValid(s.recvQueue);
    }
  }

  /** In every run the receive queue was offered the packets of just those calls, in order and once
      each; so with InvAlways the reads return those of them that found room. */
  lemma {:induction false} OffersAreCalls(es: seq<Event>)
    requires After(es).Some?
    ensures Offers(After(es).value.recvQueue.history) == OfferedBy(es)
  {
    if es == [] {
    } else {
      var es', ev := es[..|es| - 1], es[|es| - 1];
      OffersAreCalls(es');
      assert Valid(After(es').value.recvQueue) by { InvAlways(es'); }
      StepReturns(es);
      AnsweredOffers(Under(es', ev.t), After(es').value, ev, After(es).value);
    }
  }

  /** The error of the close that came first is the one that failing calls report for ever; a close
      without an error of its own gives "operation on closed connection". */
  lemma {:induction false} FirstCloseChooses(es: seq<Event>, m: nat, t: nat, e: Option<Error>)
    requires After(es).Some? && m < |es| && es[m].Step? && es[m].t == t
    requires After(es[..m]).Some? && After(es[..m]).value.once.Fresh?
    requires Under(es[..m], t).Some? && Under(es[..m], t).value.op == Close(e)
    ensures Chosen(After(es).value.once) == Some(if e == None then ClosedConn else e.value)
  {
    var n := |es| - 1;
    if m == n {
      ThreadsFollowCalls(es[..m], t);
      InvAlways(es[..m]);
    } else {
      assert es[..n][..m] == es[..m];
      FirstCloseChooses(es[..n], m, t, e);
      InvAlways(es[..n]);
      LogStep(After(es[..n]).value, es[n]);
    }
  }

  /** A goroutine in a call can take a step: with a packet, on the close, or otherwise. */
  predicate CanStep(s: State, t: nat) {
    Enabled(s, Step(t, false)) || Enabled(s, Step(t, true))
  }

  /** While a close is being made, the goroutine that makes it is inside its call. */
  predicate Inside(s: State) {
    !s.once.Fresh? && !s.once.Done? ==> s.once.t in s.threads && s.threads[s.once.t].InsideOnce?
  }

  lemma InsideStep(s: State, ev: Event)
    requires CloseState(s) && Inside(s) && Enabled(s, ev)
    ensures Inside(Next(s, ev))
  {
  }

  lemma {:induction false} InsideAlways(es: seq<Event>)
    requires After(es).Some?
    ensures Inside(After(es).value)
  {
    if es == [] {
    } else {
      InsideAlways(es[..|es| - 1]);
      assert CloseState(After(es[..|es| - 1]).value) by { InvAlways(es[..|es| - 1]); }
      InsideStep(After(es[..|es| - 1]).value, es[|es| - 1]);
    }
  }

  /** In every run a call waits only where it should: a read for a packet, while the connection is
      open and the queue empty; a close for the one being made, whose own goroutine can go on. So the
      close unblocks every read. */
  lemma NeverStuck(es: seq<Event>, t: nat)
    requires After(es).Some? && t in After(es).value.threads
    ensures var s := After(es).value;
      || CanStep(s, t)
      || (s.threads[t].ReadWaiting? && !s.closed && s.recvQueue.items == [])
      || (s.threads[t].Closing? && !s.once.Fresh? && !s.once.Done?
          && s.once.t in s.threads && CanStep(s, s.once.t))
  {
    InsideAlways(es);
  }
}
