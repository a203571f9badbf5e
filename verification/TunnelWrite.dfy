/** The write side of a tunnel connection: pumpWrite gathers writes into batches, sends a batch when
    it is large or a timer fires, and acknowledges every write of a batch with its outcome. What the
    select picks and whether SendData succeeds is up to the environment. */
module TunnelWrite {
  import opened Bytes
  import opened Wrappers

  const MAX_BATCH: nat := 64 * 1024

  // ----- specification -----

  /** `Spent` is a timer that fired and was never replaced: non-nil, but silent for ever. */
  datatype Timer = Unset | Armed | Spent

  /** A call of SendData with the writes `from .. to`. */
  datatype Send = Send(from: nat, to: nat, data: Bytes, ok: bool)

  datatype Ack = Ack(id: nat, ok: bool)

  /** Writes are numbered in the order they were dequeued. */
  datatype Pump = Pump(
    batch: Bytes,
    acks: seq<nat>,         // the writes waiting for an acknowledgement
    timer: Timer,
    running: bool,
    dequeued: seq<Bytes>,   // every write dequeued so far
    sends: seq<Send>,       // every SendData so far
    acked: seq<Ack>)        // every acknowledgement given so far

  const INIT := Pump([], [], Unset, true, [], [], [])

  datatype Input =
    | Dequeue(data: Bytes, sendOk: bool)
    | Fire(sendOk: bool)
    | CloseSeen(sendOk: bool)

  predicate Enabled(s: Pump, i: Input) {
    s.running && (i.Fire? ==> s.timer.Armed?)
  }

  function AckAll(ids: seq<nat>, ok: bool): (r: seq<Ack>)
    ensures |r| == |ids| && forall i :: 0 <= i < |ids| ==> r[i] == Ack(ids[i], ok)
  {
    if ids == [] then [] else AckAll(ids[..|ids| - 1], ok) + [Ack(ids[|ids| - 1], ok)]
  }

  lemma AckOneMore(ids: seq<nat>, i: nat, ok: bool)
    requires i < |ids|
    ensures AckAll(ids[..i + 1], ok) == AckAll(ids[..i], ok) + [Ack(ids[i], ok)]
  {
    assert ids[..i + 1][..i] == ids[..i];
  }

  function Flushed(s: Pump, ok: bool): Pump {
    s.(acked := s.acked + AckAll(s.acks, ok), acks := [], batch := [], timer := Unset)
  }

  function Sent(s: Pump, ok: bool): Pump {
    if s.batch == [] then s
    else
      var send := Send(|s.acked|, |s.dequeued|, s.batch, ok);
      Flushed(s.(sends := s.sends + [send]), ok).(running := s.running && ok)
  }

  /** One more write in the batch. */
  function Enqueued(s: Pump, data: Bytes): Pump {
    s.(batch := s.batch + data, acks := s.acks + [|s.dequeued|], dequeued := s.dequeued + [data])
  }

  function Step(s: Pump, i: Input): Pump {
    match i
    case Dequeue(data, ok) =>
      var s' := Enqueued(s, data);
      if |s'.batch| >= MAX_BATCH then Sent(s', ok)
      else if s'.timer.Unset? then s'.(timer := Armed) else s'
    case Fire(ok) => Sent(s.(timer := Spent), ok)
    case CloseSeen(ok) => Sent(s, ok).(running := false)
  }

  /** The state after a run, if every input of it was possible when it came. */
  function After(run: seq<Input>): Option<Pump> {
    if run == [] then Some(INIT)
    else
      match After(run[..|run| - 1])
      case None => None
      case Some(s) => if Enabled(s, run[|run| - 1]) then Some(Step(s, run[|run| - 1])) else None
  }

  // ----- the code -----

  class Writer {
    var batch: Bytes
    var acks: seq<nat>
    var timer: Timer
    var running: bool
    var dequeued: seq<Bytes>  // its length numbers the next request, standing for its ack channel
    ghost var sends: seq<Send>
    ghost var acked: seq<Ack>

    ghost function State(): Pump
      reads this
    {
      Pump(batch, acks, timer, running, dequeued, sends, acked)
    }

    constructor ()
      ensures State() == INIT
    {
      batch, acks, timer, running := [], [], Unset, true;
      dequeued, sends, acked := [], [], [];
    }

    method Flush(ok: bool)
      modifies this
      ensures State() == Flushed(old(State()), ok)
    {
      for i := 0 to |acks|
        invariant acked == old(acked) + AckAll(acks[..i], ok)
        modifies this`acked
      {
        AckOneMore(acks, i, ok);
        ghost var done := AckAll(acks[..i], ok);
        assert (old(acked) + done) + [Ack(acks[i], ok)] == old(acked) + (done + [Ack(acks[i], ok)]);
        acked := acked + [Ack(acks[i], ok)];
      }
      assert acks[..|acks|] == acks;
      acks := [];
      batch := [];
      if timer != Unset {
        timer := Unset;
      }
    }

    /** `sendOk` says whether SendData succeeds, if it is called. */
    method SendBatch(sendOk: bool) returns (ok: bool)
      requires running
      modifies this
      ensures State() == Sent(old(State()), sendOk) && ok == running
    {
      if |batch| == 0 {
        return true;
      }
      sends := sends + [Send(|acked|, |dequeued|, batch, sendOk)];
      Flush(sendOk);
      if !sendOk {
        running := false;  // Close, and pumpWrite returns
      }
      ok := sendOk;
    }

    /** One turn of the loop. */
    method Serve(input: Input)
      requires running && (input.Fire? ==> timer == Armed)
      modifies this
      ensures State() == Step(old(State()), input)
    {
      match input {
        case Dequeue(data, sendOk) =>
          batch := batch + data;
          acks := acks + [|dequeued|];
          dequeued := dequeued + [data];
          if |batch| >= MAX_BATCH {
            var _ := SendBatch(sendOk);
          } else if timer == Unset {
            timer := Armed;
          }
        case Fire(sendOk) =>
          timer := Spent;
          var _ := SendBatch(sendOk);
        case CloseSeen(sendOk) =>
          if |batch| > 0 {
            var _ := SendBatch(sendOk);
          }
          running := false;
      }
    }

    /** The loop, for the inputs the environment provides; it stops at one that cannot happen. */
    method PumpWrite(inputs: seq<Input>) returns (n: nat)
      requires State() == INIT
      modifies this
      ensures n <= |inputs| && After(inputs[..n]) == Some(State())
      ensures n < |inputs| ==> !Enabled(State(), inputs[n])
    {
      n := 0;
      while n < |inputs| && running && (inputs[n].Fire? ==> timer == Armed)
        invariant n <= |inputs| && After(inputs[..n]) == Some(State())
      {
        assert inputs[..n + 1][..n] == inputs[..n];
        Serve(inputs[n]);
        n := n + 1;
      }
    }
  }

  // ----- accounting -----

  /** The sends partition the acknowledged writes into consecutive batches: each sent its writes'
      bytes, at least one, and nothing else, was under 64 KiB without its last write, and gave all its
      writes its own outcome. */
  ghost predicate Ledger(sends: seq<Send>, dequeued: seq<Bytes>, acked: seq<Ack>) {
    if sends == [] then acked == []
    else
      var b := sends[|sends| - 1];
      && b.from < b.to == |acked| <= |dequeued|
      && b.data != [] && b.data == Concat(dequeued[b.from..b.to])
      && |Concat(dequeued[b.from..b.to - 1])| < MAX_BATCH
      && (forall i :: b.from <= i < b.to ==> acked[i].ok == b.ok)
      && Ledger(sends[..|sends| - 1], dequeued, acked[..b.from])
  }

  /** The acknowledgements given and the ones waiting are, in order and once each, those of the `n`
      writes dequeued. */
  ghost predicate Numbered(acked: seq<Ack>, acks: seq<nat>, n: nat) {
    && |acked| + |acks| == n
    && (forall i :: 0 <= i < |acked| ==> acked[i].id == i)
    && (forall i :: 0 <= i < |acks| ==> acks[i] == |acked| + i)
  }

  /** The acknowledgements are in order, and the pending batch is exactly the bytes of the writes
      whose acknowledgements wait. */
  ghost predicate Accounts(s: Pump) {
    && Numbered(s.acked, s.acks, |s.dequeued|)
    && s.batch == Concat(s.dequeued[|s.acked|..])
    && Ledger(s.sends, s.dequeued, s.acked)
  }

  /** Only the last send may have failed, and then the pump has stopped. */
  ghost predicate StopsAtFailure(s: Pump) {
    && (forall i :: 0 <= i < |s.sends| - 1 ==> s.sends[i].ok)
    && (s.running ==> forall i :: 0 <= i < |s.sends| ==> s.sends[i].ok)
  }

  /** At the head of the loop the batch is below the limit, and the timer is set exactly when
      something waits. */
  ghost predicate AtHead(s: Pump) {
    s.running ==> |s.batch| < MAX_BATCH && (s.timer.Unset? <==> s.acks == [])
  }

  lemma {:induction false} LedgerGrows(sends: seq<Send>, dequeued: seq<Bytes>, acked: seq<Ack>, data: Bytes)
    requires Ledger(sends, dequeued, acked)
    ensures Ledger(sends, dequeued + [data], acked)
  {
    if sends == [] {
    } else {
      var b := sends[|sends| - 1];
      LedgerGrows(sends[..|sends| - 1], dequeued, acked[..b.from], data);
      assert (dequeued + [data])[b.from..b.to] == dequeued[b.from..b.to];
      assert (dequeued + [data])[b.from..b.to - 1] == dequeued[b.from..b.to - 1];
    }
  }

  lemma BatchGrows(dequeued: seq<Bytes>, from: nat, data: Bytes)
    requires from <= |dequeued|
    ensures Concat((dequeued + [data])[from..]) == Concat(dequeued[from..]) + data
  {
    ConcatSnoc(dequeued[from..], data);
    assert (dequeued + [data])[from..] == dequeued[from..] + [data];
  }

  /** One more send, of all the writes not yet acknowledged. */
  lemma LedgerSend(sends: seq<Send>, dequeued: seq<Bytes>, acked: seq<Ack>, b: Send, more: seq<Ack>)
    requires Ledger(sends, dequeued, acked) && |acked| < |dequeued|
    requires b == Send(|acked|, |dequeued|, Concat(dequeued[|acked|..]), b.ok) && b.data != []
    requires |more| == |dequeued| - |acked| && forall i :: 0 <= i < |more| ==> more[i].ok == b.ok
    requires |Concat(dequeued[|acked|..|dequeued| - 1])| < MAX_BATCH
    ensures Ledger(sends + [b], dequeued, acked + more)
  {
    assert (sends + [b])[..|sends|] == sends && (acked + more)[..|acked|] == acked;
    assert dequeued[|acked|..|dequeued|] == dequeued[|acked|..];
  }

  lemma NumberedFlush(acked: seq<Ack>, acks: seq<nat>, n: nat, ok: bool)
    requires Numbered(acked, acks, n)
    ensures Numbered(acked + AckAll(acks, ok), [], n)
  {
  }

  lemma SentAccounts(s: Pump, ok: bool)
    requires Accounts(s)
    requires s.acks != [] ==> |Concat(s.dequeued[|s.acked|..|s.dequeued| - 1])| < MAX_BATCH
    ensures Accounts(Sent(s, ok))
  {
    if s.batch != [] {
      assert s.dequeued[|s.acked|..] != [];
      LedgerSend(s.sends, s.dequeued, s.acked, Send(|s.acked|, |s.dequeued|, s.batch, ok), AckAll(s.acks, ok));
      NumberedFlush(s.acked, s.acks, |s.dequeued|, ok);
      assert Concat(s.dequeued[|s.dequeued|..]) == [];
    }
  }

  lemma EnqueuedAccounts(s: Pump, data: Bytes)
    requires Accounts(s)
    ensures Accounts(Enqueued(s, data))
  {
    BatchGrows(s.dequeued, |s.acked|, data);
    LedgerGrows(s.sends, s.dequeued, s.acked, data);
  }

  lemma DequeueAccounts(s: Pump, data: Bytes, ok: bool)
    requires Accounts(s) && |s.batch| < MAX_BATCH
    ensures Accounts(Step(s, Dequeue(data, ok)))
  {
    var s' := Enqueued(s, data);
    EnqueuedAccounts(s, data);
    assert s'.dequeued[|s.acked|..|s'.dequeued| - 1] == s.dequeued[|s.acked|..];
    SentAccounts(s', ok);
  }

  lemma AllButLast(dequeued: seq<Bytes>, from: nat)
    requires from < |dequeued|
    ensures |Concat(dequeued[from..|dequeued| - 1])| <= |Concat(dequeued[from..])|
  {
    var n := |dequeued| - 1;
    ConcatSnoc(dequeued[from..n], dequeued[n]);
    assert dequeued[from..] == dequeued[from..n] + [dequeued[n]];
  }

  lemma StepAccounts(s: Pump, i: Input)
    requires Accounts(s) && AtHead(s) && Enabled(s, i)
    ensures Accounts(Step(s, i))
  {
    if s.acks != [] {
      AllButLast(s.dequeued, |s.acked|);
    }
    match i
    case Dequeue(data, ok) => DequeueAccounts(s, data, ok);
    case Fire(ok) => SentAccounts(s.(timer := Spent), ok);
    case CloseSeen(ok) => SentAccounts(s, ok);
  }

  lemma StepAtHead(s: Pump, i: Input)
    requires AtHead(s) && Enabled(s, i) && (s.acks == [] ==> s.batch == [])
    ensures AtHead(Step(s, i))
  {
  }

  lemma StepStopsAtFailure(s: Pump, i: Input)
    requires StopsAtFailure(s) && Enabled(s, i)
    ensures StopsAtFailure(Step(s, i))
  {
  }

  lemma {:induction false} RunAccounts(run: seq<Input>)
    requires After(run).Some?
    ensures var s := After(run).value; Accounts(s) && AtHead(s) && StopsAtFailure(s)
  {
    if run == [] {
    } else {
      var s := After(run[..|run| - 1]).value;
      RunAccounts(run[..|run| - 1]);
      assert s.acks == [] ==> s.dequeued[|s.acked|..] == [];
      StepAccounts(s, run[|run| - 1]);
      StepAtHead(s, run[|run| - 1]);
      StepStopsAtFailure(s, run[|run| - 1]);
    }
  }

  // ----- what the accounting means -----

  function DataOf(sends: seq<Send>): seq<Bytes> {
    if sends == [] then [] else DataOf(sends[..|sends| - 1]) + [sends[|sends| - 1].data]
  }

  lemma {:induction false} LedgerConserves(sends: seq<Send>, dequeued: seq<Bytes>, acked: seq<Ack>)
    requires Ledger(sends, dequeued, acked) && |acked| <= |dequeued|
    ensures Concat(DataOf(sends)) == Concat(dequeued[..|acked|])
  {
    if sends == [] {
      assert dequeued[..0] == [];
    } else {
      var b := sends[|sends| - 1];
      LedgerConserves(sends[..|sends| - 1], dequeued, acked[..b.from]);
      ConcatSnoc(DataOf(sends[..|sends| - 1]), b.data);
      ConcatAppend(dequeued[..b.from], dequeued[b.from..b.to]);
      assert dequeued[..b.to] == dequeued[..b.from] + dequeued[b.from..b.to];
    }
  }

  lemma {:induction false} LedgerCovers(sends: seq<Send>, dequeued: seq<Bytes>, acked: seq<Ack>, i: nat)
      returns (j: nat)
    requires Ledger(sends, dequeued, acked) && i < |acked|
    ensures j < |sends| && sends[j].from <= i < sends[j].to <= |dequeued|
    ensures sends[j].ok == acked[i].ok && sends[j].data == Concat(dequeued[sends[j].from..sends[j].to])
  {
    j := |sends| - 1;
    if i < sends[j].from {
      j := LedgerCovers(sends[..j], dequeued, acked[..sends[j].from], i);
    }
  }

  /** In every run the sends, then the pending batch, are the dequeued bytes in order: nothing is
      lost, repeated or reordered. */
  lemma NothingLost(run: seq<Input>)
    requires After(run).Some?
    ensures var s := After(run).value; Concat(DataOf(s.sends)) + s.batch == Concat(s.dequeued)
  {
    RunAccounts(run);
    var s := After(run).value;
    LedgerConserves(s.sends, s.dequeued, s.acked);
    ConcatAppend(s.dequeued[..|s.acked|], s.dequeued[|s.acked|..]);
    assert s.dequeued == s.dequeued[..|s.acked|] + s.dequeued[|s.acked|..];
  }

  /** A write acknowledged without error was, whole, in a SendData that returned without error; one
      acknowledged with an error was in one that failed. */
  lemma AckIsHonest(run: seq<Input>, i: nat)
    requires After(run).Some? && i < |After(run).value.acked|
    ensures var s := After(run).value;
      && s.acked[i].id == i
      && exists j :: 0 <= j < |s.sends| && s.sends[j].from <= i < s.sends[j].to <= |s.dequeued|
           && s.sends[j].ok == s.acked[i].ok
           && s.sends[j].data == Concat(s.dequeued[s.sends[j].from..s.sends[j].to])
  {
    RunAccounts(run);
    var s := After(run).value;
    var j := LedgerCovers(s.sends, s.dequeued, s.acked, i);
  }

  // ----- how the pump ends -----

  function WritesOf(run: seq<Input>): seq<Bytes> {
    if run == [] then []
    else WritesOf(run[..|run| - 1]) + if run[|run| - 1].Dequeue? then [run[|run| - 1].data] else []
  }

  predicate NoneEmpty(ws: seq<Bytes>) {
    forall i :: 0 <= i < |ws| ==> ws[i] != []
  }

  lemma {:induction false} DequeuedAre(run: seq<Input>)
    requires After(run).Some?
    ensures After(run).value.dequeued == WritesOf(run)
  {
    if run == [] {
    } else {
      DequeuedAre(run[..|run| - 1]);
    }
  }

  /** The pump has stopped because it saw the closing or because a send failed. */
  predicate HasEnded(run: seq<Input>, s: Pump) {
    || (run != [] && run[|run| - 1].CloseSeen?)
    || (s.sends != [] && !s.sends[|s.sends| - 1].ok)
  }

  lemma EndsEmpty(s: Pump, i: Input)
    requires Enabled(s, i) && StopsAtFailure(s)
    ensures var s' := Step(s, i);
      && (!s'.running <==> i.CloseSeen? || (s'.sends != [] && !s'.sends[|s'.sends| - 1].ok))
      && (!s'.running ==> s'.batch == [])
  {
  }

  lemma {:induction false} EmptyBytes(ws: seq<Bytes>)
    requires Concat(ws) == []
    ensures forall i :: 0 <= i < |ws| ==> ws[i] == []
  {
    if ws == [] {
    } else {
      EmptyBytes(ws[1..]);
      assert ws == [ws[0]] + ws[1..];
    }
  }

  /** In every run the pump stops exactly on the closing or a failed send, and then it has sent every
      byte that was written and acknowledged every write but possibly some empty ones at the end. */
  lemma StopsClean(run: seq<Input>)
    requires After(run).Some?
    ensures var s := After(run).value;
      && s.dequeued == WritesOf(run)
      && (!s.running <==> HasEnded(run, s))
      && (!s.running ==>
            && s.batch == [] && Concat(DataOf(s.sends)) == Concat(WritesOf(run))
            && (forall i :: |s.acked| <= i < |s.dequeued| ==> s.dequeued[i] == [])
            && (NoneEmpty(WritesOf(run)) ==> s.acks == []))
  {
    var s := After(run).value;
    DequeuedAre(run);
    RunAccounts(run);
    NothingLost(run);
    if run != [] {
      RunAccounts(run[..|run| - 1]);
      EndsEmpty(After(run[..|run| - 1]).value, run[|run| - 1]);
    }
    if !s.running {
      assert Concat(DataOf(s.sends)) + [] == Concat(DataOf(s.sends));
      var waiting := s.dequeued[|s.acked|..];
      EmptyBytes(waiting);
      forall i | |s.acked| <= i < |s.dequeued|
        ensures s.dequeued[i] == []
      {
        assert s.dequeued[i] == waiting[i - |s.acked|];
      }
    }
  }

  /** One more input of a run. */
  lemma Extend(run: seq<Input>, i: Input) returns (longer: seq<Input>)
    requires After(run).Some? && Enabled(After(run).value, i)
    ensures longer == run + [i] && After(longer) == Some(Step(After(run).value, i))
    ensures WritesOf(longer) == WritesOf(run) + if i.Dequeue? then [i.data] else []
  {
    longer := run + [i];
    assert longer[..|run|] == run;
  }

  /** An empty write before the closing is never acknowledged. */
  lemma EmptyWriteUnanswered()
    ensures var s := After([Dequeue([], true), CloseSeen(true)]);
      s.Some? && !s.value.running && s.value.acks == [0] && s.value.acked == []
  {
    var one := Extend([], Dequeue([], true));
    var both := Extend(one, CloseSeen(true));
    assert both == [Dequeue([], true), CloseSeen(true)];
  }

  /** The sends of less than 64 KiB. */
  function SmallSends(sends: seq<Send>): nat {
    if sends == [] then 0
    else SmallSends(sends[..|sends| - 1]) + if |sends[|sends| - 1].data| < MAX_BATCH then 1 else 0
  }

  /** The inputs other than writes. */
  function Flushes(run: seq<Input>): nat {
    if run == [] then 0 else Flushes(run[..|run| - 1]) + if run[|run| - 1].Dequeue? then 0 else 1
  }

  /** Writes are batched: every send is of at least 64 KiB, or made by the timer or the closing, which
      make one each at most. */
  lemma {:induction false} SendsAreBatched(run: seq<Input>)
    requires After(run).Some?
    ensures SmallSends(After(run).value.sends) <= Flushes(run)
  {
    if run == [] {
    } else {
      SendsAreBatched(run[..|run| - 1]);
    }
  }

  // ----- the flush timer -----

  /** If a write waits, the timer is running, and when it fires every waiting write is acknowledged,
      whether the send succeeds or fails. */
  predicate Live(s: Pump) {
    s.running && s.acks != [] ==>
      s.timer.Armed? && Step(s, Fire(true)).acks == [] && Step(s, Fire(false)).acks == []
  }

  /** Under every schedule of these writes, timer firings, failures and closing, the timer flushes
      whatever waits. */
  ghost predicate AlwaysLive(ws: seq<Bytes>) {
    forall run :: After(run).Some? && WritesOf(run) <= ws ==> Live(After(run).value)
  }

  /** Without empty writes: the timer runs exactly when there is something to send, and a write is
      waiting exactly then. */
  predicate Steady(s: Pump) {
    s.running ==> !s.timer.Spent? && (s.timer.Armed? <==> s.batch != []) && (s.acks != [] <==> s.batch != [])
  }

  lemma StepSteady(s: Pump, i: Input)
    requires Steady(s) && Enabled(s, i) && (i.Dequeue? ==> i.data != [])
    ensures Steady(Step(s, i))
  {
  }

  lemma {:induction false} NonEmptyStaysSteady(run: seq<Input>)
    requires After(run).Some? && NoneEmpty(WritesOf(run))
    ensures Steady(After(run).value)
  {
    if run == [] {
    } else {
      var before, i := run[..|run| - 1], run[|run| - 1];
      assert WritesOf(before) == WritesOf(run)[..|WritesOf(before)|];
      assert i.Dequeue? ==> WritesOf(run)[|WritesOf(before)|] == i.data;
      NonEmptyStaysSteady(before);
      StepSteady(After(before).value, i);
    }
  }

  predicate Idle(s: Pump) {
    s.running && s.acks == [] && s.batch == [] && s.timer.Unset?
  }

  /** A nonempty write to an idle pump is flushed at once or by the timer. */
  lemma FlushedByTimer(s: Pump, data: Bytes)
    requires Idle(s) && data != []
    ensures var s' := Step(s, Dequeue(data, true));
      if s'.timer.Armed? then Enabled(s', Fire(true)) && Idle(Step(s', Fire(true))) else Idle(s')
  {
  }

  /** A run that dequeues just these writes and has everything flushed. */
  lemma {:induction false} Drained(ws: seq<Bytes>) returns (run: seq<Input>)
    requires NoneEmpty(ws)
    ensures After(run).Some? && WritesOf(run) == ws && Idle(After(run).value)
  {
    if ws == [] {
      run := [];
    } else {
      var n := |ws| - 1;
      run := Drained(ws[..n]);
      FlushedByTimer(After(run).value, ws[n]);
      run := Extend(run, Dequeue(ws[n], true));
      if After(run).value.timer.Armed? {
        run := Extend(run, Fire(true));
      }
      assert ws[..n] + [ws[n]] == ws;
    }
  }

  /** After only nonempty writes, an empty one can spend the timer. */
  lemma EmptyWriteSpendsTimer(ws: seq<Bytes>) returns (run: seq<Input>)
    requires NoneEmpty(ws)
    ensures After(run).Some? && WritesOf(run) == ws + [[]] && !Live(After(run).value)
    ensures var s := After(run).value; s.running && s.timer.Spent? && s.batch == [] && |s.acks| == 1
  {
    run := Drained(ws);
    run := Extend(run, Dequeue([], true));
    run := Extend(run, Fire(true));
  }

  lemma {:induction false} FirstEmpty(ws: seq<Bytes>) returns (k: nat)
    requires !NoneEmpty(ws)
    ensures k < |ws| && ws[k] == [] && NoneEmpty(ws[..k])
  {
    k := |ws| - 1;
    if !NoneEmpty(ws[..k]) {
      var j := FirstEmpty(ws[..k]);
      assert ws[..k][..j] == ws[..j];
      k := j;
    }
  }

  /** The timer can be relied on exactly when no write is empty. */
  lemma AlwaysLiveIff(ws: seq<Bytes>)
    ensures AlwaysLive(ws) <==> NoneEmpty(ws)
  {
    if NoneEmpty(ws) {
      forall run | After(run).Some? && WritesOf(run) <= ws
        ensures Live(After(run).value)
      {
        NonEmptyStaysSteady(run);
      }
    } else {
      var k := FirstEmpty(ws);
      var run := EmptyWriteSpendsTimer(ws[..k]);
      assert ws[..k] + [[]] == ws[..k + 1];
      assert After(run).Some? && WritesOf(run) <= ws;
    }
  }

  predicate OnlyWrites(inputs: seq<Input>) {
    forall i :: 0 <= i < |inputs| ==> inputs[i].Dequeue?
  }

  /** The state after some more writes. */
  function Then(s: Pump, inputs: seq<Input>): Pump {
    if inputs == [] then s else Step(Then(s, inputs[..|inputs| - 1]), inputs[|inputs| - 1])
  }

  /** Nothing but a full batch or the closing of the connection acknowledges what waits here. */
  ghost predicate Stalled(s: Pump) {
    && s.running && s.timer.Spent?
    && forall i :: Enabled(s, i) && Step(s, i).acked != s.acked ==>
         i.CloseSeen? || (i.Dequeue? && |s.batch| + |i.data| >= MAX_BATCH)
  }

  /** Once the timer is spent, any number of later writes wait without it as long as the batch stays
      below the limit: nothing is sent, nothing is acknowledged, and the timer never fires again. */
  lemma {:induction false} SpentTimerStalls(s: Pump, inputs: seq<Input>)
    requires s.running && s.timer.Spent? && OnlyWrites(inputs)
    requires |s.batch| + |Concat(WritesOf(inputs))| < MAX_BATCH
    ensures var s' := Then(s, inputs);
      && Stalled(s') && s'.batch == s.batch + Concat(WritesOf(inputs))
      && s'.sends == s.sends && s'.acked == s.acked && |s'.acks| == |s.acks| + |inputs|
  {
    if inputs == [] {
      assert s.batch + [] == s.batch;
    } else {
      var before, i := inputs[..|inputs| - 1], inputs[|inputs| - 1];
      ConcatSnoc(WritesOf(before), i.data);
      Assoc(s.batch, Concat(WritesOf(before)), i.data);
      SpentTimerStalls(s, before);
    }
  }

  lemma AllButLastWrite(s: Pump, inputs: seq<Input>)
    requires s.running && s.timer.Spent? && OnlyWrites(inputs) && inputs != []
    requires |s.batch| + |Concat(WritesOf(inputs))| < MAX_BATCH
    ensures var before := inputs[..|inputs| - 1];
      OnlyWrites(before) && |s.batch| + |Concat(WritesOf(before))| < MAX_BATCH && Then(s, before).running
  {
    var n := |inputs| - 1;
    ConcatSnoc(WritesOf(inputs[..n]), inputs[n].data);
    SpentTimerStalls(s, inputs[..n]);
  }

  /** A run that goes on with small writes while the timer is spent. */
  lemma {:induction false} GoesOnStalled(run: seq<Input>, s: Pump, inputs: seq<Input>)
    requires After(run) == Some(s) && s.running && s.timer.Spent? && OnlyWrites(inputs)
    requires |s.batch| + |Concat(WritesOf(inputs))| < MAX_BATCH
    ensures After(run + inputs) == Some(Then(s, inputs))
    ensures WritesOf(run + inputs) == WritesOf(run) + WritesOf(inputs)
  {
    if inputs == [] {
      assert run + inputs == run && WritesOf(run) + [] == WritesOf(run);
    } else {
      var before, last := inputs[..|inputs| - 1], inputs[|inputs| - 1];
      AllButLastWrite(s, inputs);
      GoesOnStalled(run, s, before);
      var longer := Extend(run + before, last);
      assert longer == run + inputs;
      Assoc(WritesOf(run), WritesOf(before), [last.data]);
    }
  }

  /** So after any nonempty writes, an empty one can leave all later writes waiting, as long as they stay
      below the limit together: none of them is sent or acknowledged, and the timer never fires. */
  lemma EmptyWriteStalls(ws: seq<Bytes>, inputs: seq<Input>) returns (run: seq<Input>)
    requires NoneEmpty(ws) && OnlyWrites(inputs) && |Concat(WritesOf(inputs))| < MAX_BATCH
    ensures After(run).Some? && WritesOf(run) == (ws + [[]]) + WritesOf(inputs)
    ensures var s := After(run).value;
      Stalled(s) && s.batch == Concat(WritesOf(inputs)) && |s.acks| == 1 + |inputs|
  {
    var first := EmptyWriteSpendsTimer(ws);
    GoesOnStalled(first, After(first).value, inputs);
    SpentTimerStalls(After(first).value, inputs);
    run := first + inputs;
    assert [] + Concat(WritesOf(inputs)) == Concat(WritesOf(inputs));
  }

  /** A timer fires once: right after it fired, it cannot fire again. */
  lemma FiresOnce(run: seq<Input>, ok: bool)
    requires After(run).Some? && run != [] && run[|run| - 1].Fire?
    ensures !Enabled(After(run).value, Fire(ok))
  {
  }
}
