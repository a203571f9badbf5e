/** The whole download path of one connection with one download stream: remote reader, server
    channel, framing, network, stream reader, read pump, client channel, and tunnelConn.Read, each
    moving on at its own pace. */
module TunnelPipeline {
  import opened Bytes
  import opened Cipher
  import opened Wrappers
  import opened TunnelStream

  const CHANNEL_SIZE: nat := 16
  const PUMP_BUFFER: nat := 32 * 1024

  // ----- tunnelConn.Read -----

  datatype ConnRead = Got(p: Bytes) | EndOfFile | Blocks

  class TunnelConn {
    var readBuf: Bytes
    var readCh: seq<Bytes>   // what is in the channel
    var readChClosed: bool

    ghost function Pending(): Bytes
      reads this
    {
      readBuf + Concat(readCh)
    }

    constructor (readCh: seq<Bytes>, readChClosed: bool)
      ensures readBuf == [] && this.readCh == readCh && this.readChClosed == readChClosed
    {
      this.readBuf, this.readCh, this.readChClosed := [], readCh, readChClosed;
    }

    /** With a buffer of `room` bytes; the new state is the specification's, and no byte is lost or
        reordered. It is the end of the file exactly if nothing is left and the channel is closed, and
        otherwise as much is returned as there is room for of what comes next. */
    method Read(room: nat) returns (r: ConnRead)
      modifies this
      ensures (r, readBuf, readCh) == ReadStep(old(readBuf), old(readCh), readChClosed, room)
      ensures readChClosed == old(readChClosed)
      ensures old(Pending()) == (if r.Got? then r.p else []) + Pending()
      ensures r == EndOfFile <==> old(readBuf) == [] && old(readCh) == [] && readChClosed
      ensures r == Blocks <==> old(readBuf) == [] && old(readCh) == [] && !readChClosed
      ensures r.Got? ==>
        var next := if old(readBuf) != [] then old(readBuf) else old(readCh)[0];
        |r.p| == if |next| <= room then |next| else room
    {
      ReadStepConserves(readBuf, readCh, readChClosed, room);
      if |readBuf| > 0 {
        var p := FirstBytes(readBuf, room);
        readBuf := readBuf[|p|..];
        return Got(p);
      }
      if readCh == [] {
        return if readChClosed then EndOfFile else Blocks;
      }
      var data := readCh[0];
      readCh := readCh[1..];
      var p := FirstBytes(data, room);
      if |p| < |data| {
        readBuf := data[|p|..];
      }
      r := Got(p);
    }
  }

  function ReadStep(readBuf: Bytes, readCh: seq<Bytes>, closed: bool, room: nat): (ConnRead, Bytes, seq<Bytes>) {
    if readBuf != [] then
      var p := FirstBytes(readBuf, room);
      (Got(p), readBuf[|p|..], readCh)
    else if readCh == [] then (if closed then EndOfFile else Blocks, readBuf, readCh)
    else
      var p := FirstBytes(readCh[0], room);
      (Got(p), readCh[0][|p|..], readCh[1..])
  }

  lemma ReadStepConserves(readBuf: Bytes, readCh: seq<Bytes>, closed: bool, room: nat)
    ensures var (r, buf, ch) := ReadStep(readBuf, readCh, closed, room);
      readBuf + Concat(readCh) == (if r.Got? then r.p else []) + (buf + Concat(ch))
  {
    if readBuf != [] {
      Split(readBuf, Concat(readCh), room);
    } else if readCh != [] {
      Split(readCh[0], Concat(readCh[1..]), room);
      assert readBuf + Concat(readCh) == Concat(readCh);
    } else {
      assert [] + (readBuf + Concat(readCh)) == readBuf + Concat(readCh);
    }
  }

  // ----- the pipeline -----

  datatype Frame = Frame(nonce: Nonce, data: Bytes)

  datatype State = State(
    remote: Bytes,          // every byte the server read from the remote
    serverHand: Bytes,      // the chunk waiting to enter dataCh, if any
    dataCh: seq<Bytes>,
    inFlight: Bytes,        // written by the server, not yet arrived
    arrived: Bytes,         // at the client, not yet read from the response body
    broken: bool,           // the response can carry nothing more
    frames: seq<Frame>,     // the frames whose bytes are not wholly read (no code looks at this)
    lost: Bytes,            // their bytes that will never arrive (nor at this)
    decrypted: Bytes,       // what the stream reader has left of a frame
    pumpHand: Bytes,        // what the pump waits to put into readCh
    pumpDone: bool,
    rejected: bool,         // the stream reader refused a frame
    readCh: seq<Bytes>,
    readChClosed: bool,
    readBuf: Bytes,
    returned: Bytes)        // every byte tunnelConn.Read returned

  const INIT := State([], [], [], [], [], false, [], [], [], [], false, false, [], false, [], [])

  datatype Event =
    | RemoteRead(chunk: Bytes)   // handleConnect: remote.Read
    | ServerPush                 // handleConnect: cc.dataCh <- data
    | WriteFrame(nonce: Nonce)   // handleDownload: one turn of its loop
    | Arrive(n: nat)             // the network delivers n bytes
    | Break                      // the response ends or breaks; what is in flight is lost
    | ReadFrame                  // streamReader.Read: a frame, when it is all there
    | PumpRead                   // streamReader.Read: copying out
    | PumpPush                   // pumpRead: tc.readCh <- dup
    | PumpStop(closing: bool)    // pumpRead returns: on closeCh, or on a read error
    | Read(room: nat)            // tunnelConn.Read

  predicate Enabled(a: Aead, s: State, ev: Event) {
    match ev
    case RemoteRead(chunk) => s.serverHand == [] && 0 < |chunk| <= REMOTE_BUFFER
    case ServerPush => s.serverHand != [] && |s.dataCh| < CHANNEL_SIZE
    case WriteFrame(_) => s.dataCh != [] && !s.broken
    case Arrive(n) => n <= |s.inFlight|
    case Break => true
    case ReadFrame => !s.pumpDone && s.pumpHand == [] && s.decrypted == [] && NextUnit(a, s.arrived) != BodyEnds
    case PumpRead => !s.pumpDone && s.pumpHand == [] && s.decrypted != []
    case PumpPush => !s.pumpDone && s.pumpHand != [] && |s.readCh| < CHANNEL_SIZE && !s.readChClosed
    case PumpStop(closing) =>
      && !s.pumpDone
      && (closing || (s.pumpHand == [] && s.decrypted == [] && s.broken && NextUnit(a, s.arrived) == BodyEnds))
    case Read(room) => ReadStep(s.readBuf, s.readCh, s.readChClosed, room).0.Got?
  }

  function Next(a: Aead, id: TF.ConnId, s: State, ev: Event): State
    requires Enabled(a, s, ev)
  {
    match ev
    case RemoteRead(chunk) => s.(remote := s.remote + chunk, serverHand := chunk)
    case ServerPush => s.(serverHand := [], dataCh := s.dataCh + [s.serverHand])
    case WriteFrame(nonce) =>
      var data := s.dataCh[0];
      s.(dataCh := s.dataCh[1..], inFlight := s.inFlight + FrameBytes(a, id, nonce, data),
         frames := s.frames + [Frame(nonce, data)])
    case Arrive(n) => s.(arrived := s.arrived + s.inFlight[..n], inFlight := s.inFlight[n..])
    case Break => s.(broken := true, inFlight := [], lost := s.inFlight + s.lost)
    case ReadFrame =>
      (match NextUnit(a, s.arrived)
       case Payload(data, rest) =>
         s.(decrypted := data, arrived := rest, frames := if s.frames == [] then [] else s.frames[1..])
       case _ => s.(rejected := true, pumpDone := true))
    case PumpRead =>
      var p := FirstBytes(s.decrypted, PUMP_BUFFER);
      s.(pumpHand := p, decrypted := s.decrypted[|p|..])
    case PumpPush => s.(pumpHand := [], readCh := s.readCh + [s.pumpHand])
    case PumpStop(closing) => s.(pumpDone := true, readChClosed := s.readChClosed || !closing)
    case Read(room) =>
      var (r, buf, ch) := ReadStep(s.readBuf, s.readCh, s.readChClosed, room);
      s.(readBuf := buf, readCh := ch, returned := s.returned + r.p)
  }

  ghost function After(a: Aead, id: TF.ConnId, es: seq<Event>): Option<State> {
    if es == [] then Some(INIT)
    else
      match After(a, id, es[..|es| - 1])
      case None => None
      case Some(s) => if Enabled(a, s, es[|es| - 1]) then Some(Next(a, id, s, es[|es| - 1])) else None
  }

  // ----- the wire -----

  function WireOf(a: Aead, id: TF.ConnId, fs: seq<Frame>): Bytes {
    if fs == [] then [] else FrameBytes(a, id, fs[0].nonce, fs[0].data) + WireOf(a, id, fs[1..])
  }

  function DataOf(fs: seq<Frame>): seq<Bytes> {
    seq(|fs|, i requires 0 <= i < |fs| => fs[i].data)
  }

  predicate Small(ps: seq<Bytes>) {
    forall i :: 0 <= i < |ps| ==> |ps[i]| <= REMOTE_BUFFER
  }

  /** What has arrived, what is in flight and what is lost are together the bytes of the frames. */
  ghost predicate OnWire(a: Aead, id: TF.ConnId, fs: seq<Frame>, arrived: Bytes, inFlight: Bytes, lost: Bytes) {
    Small(DataOf(fs)) && arrived + (inFlight + lost) == WireOf(a, id, fs)
  }

  ghost predicate Wired(a: Aead, id: TF.ConnId, s: State) {
    && |s.serverHand| <= REMOTE_BUFFER && Small(s.dataCh)
    && OnWire(a, id, s.frames, s.arrived, s.inFlight, s.lost)
    && (s.lost != [] ==> s.broken)
    && (s.broken ==> s.inFlight == [])
    && !s.rejected
  }

  lemma {:induction false} WireOfSnoc(a: Aead, id: TF.ConnId, fs: seq<Frame>, f: Frame)
    ensures WireOf(a, id, fs + [f]) == WireOf(a, id, fs) + FrameBytes(a, id, f.nonce, f.data)
  {
    if fs == [] {
      assert (fs + [f])[1..] == [];
    } else {
      WireOfSnoc(a, id, fs[1..], f);
      assert (fs + [f])[0] == fs[0] && (fs + [f])[1..] == fs[1..] + [f];
      Assoc(FrameBytes(a, id, fs[0].nonce, fs[0].data), WireOf(a, id, fs[1..]), FrameBytes(a, id, f.nonce, f.data));
    }
  }

  /** From any beginning of the frames' bytes, the stream reader gets the first frame's data once it
      is all there, and until then waits. */
  lemma FirstFrame(a: Aead, id: TF.ConnId, fs: seq<Frame>, arrived: Bytes)
    requires Sound(a) && Small(DataOf(fs)) && arrived <= WireOf(a, id, fs)
    ensures NextUnit(a, arrived) == BodyEnds ||
      (fs != [] &&
       var f := FrameBytes(a, id, fs[0].nonce, fs[0].data);
       |f| <= |arrived| && NextUnit(a, arrived) == Payload(fs[0].data, arrived[|f|..]) && arrived == f + arrived[|f|..])
  {
    if fs != [] {
      var f := FrameBytes(a, id, fs[0].nonce, fs[0].data);
      assert DataOf(fs)[0] == fs[0].data;
      if |arrived| < |f| {
        PartialFrame(a, id, fs[0].nonce, fs[0].data, |arrived|);
        assert arrived == f[..|arrived|];
      } else {
        assert arrived == f + arrived[|f|..];
        FrameComesBack(a, id, fs[0].nonce, fs[0].data, arrived[|f|..]);
      }
    }
  }

  lemma FirstData(fs: seq<Frame>)
    requires fs != []
    ensures Concat(DataOf(fs)) == fs[0].data + Concat(DataOf(fs[1..]))
  {
    assert DataOf(fs)[0] == fs[0].data && DataOf(fs)[1..] == DataOf(fs[1..]);
  }

  /** On any beginning of the server's frames, the stream reader holds a beginning of their data, all
      of it if the frames are all there, and comes to an end without refusing or panicking. */
  lemma {:induction false} StreamOfWire(a: Aead, id: TF.ConnId, fs: seq<Frame>, arrived: Bytes)
    requires Sound(a) && Small(DataOf(fs)) && arrived <= WireOf(a, id, fs)
    ensures Stream(a, arrived) <= Concat(DataOf(fs)) && StreamEnd(a, arrived) == BodyEnds
    ensures arrived == WireOf(a, id, fs) ==> Stream(a, arrived) == Concat(DataOf(fs))
  {
    FirstFrame(a, id, fs, arrived);
    if fs == [] {
    } else {
      var f, rest := FrameBytes(a, id, fs[0].nonce, fs[0].data), WireOf(a, id, fs[1..]);
      assert DataOf(fs)[0] == fs[0].data;
      if |f| <= |arrived| {
        var arrived' := arrived[|f|..];
        assert arrived == f + arrived' && rest == (f + rest)[|f|..];
        FrameComesBack(a, id, fs[0].nonce, fs[0].data, arrived');
        assert DataOf(fs[1..]) == DataOf(fs)[1..];
        StreamOfWire(a, id, fs[1..], arrived');
        FirstData(fs);
      }
    }
  }

  lemma ReadFrameShape(a: Aead, id: TF.ConnId, s: State)
    requires Sound(a) && Wired(a, id, s) && Enabled(a, s, ReadFrame)
    ensures s.frames != []
    ensures var f := FrameBytes(a, id, s.frames[0].nonce, s.frames[0].data); var s' := Next(a, id, s, ReadFrame);
      && s.arrived == f + s'.arrived
      && s' == s.(decrypted := s.frames[0].data, arrived := s'.arrived, frames := s.frames[1..])
  {
    assert s.arrived <= WireOf(a, id, s.frames);
    FirstFrame(a, id, s.frames, s.arrived);
  }

  lemma WriteOnWire(a: Aead, id: TF.ConnId, fs: seq<Frame>, arrived: Bytes, inFlight: Bytes, f: Frame)
    requires OnWire(a, id, fs, arrived, inFlight, []) && |f.data| <= REMOTE_BUFFER
    ensures OnWire(a, id, fs + [f], arrived, inFlight + FrameBytes(a, id, f.nonce, f.data), [])
  {
    var fb := FrameBytes(a, id, f.nonce, f.data);
    WireOfSnoc(a, id, fs, f);
    assert inFlight + [] == inFlight && (inFlight + fb) + [] == inFlight + fb;
    Assoc(arrived, inFlight, fb);
    assert DataOf(fs + [f]) == DataOf(fs) + [f.data];
  }

  lemma WriteWired(a: Aead, id: TF.ConnId, s: State, nonce: Nonce)
    requires Wired(a, id, s) && Enabled(a, s, WriteFrame(nonce))
    ensures Wired(a, id, Next(a, id, s, WriteFrame(nonce)))
  {
    assert s.lost == [];
    WriteOnWire(a, id, s.frames, s.arrived, s.inFlight, Frame(nonce, s.dataCh[0]));
  }

  lemma ReadFrameWired(a: Aead, id: TF.ConnId, s: State)
    requires Sound(a) && Wired(a, id, s) && Enabled(a, s, ReadFrame)
    ensures Wired(a, id, Next(a, id, s, ReadFrame))
  {
    var s' := Next(a, id, s, ReadFrame);
    ReadFrameShape(a, id, s);
    var f := FrameBytes(a, id, s.frames[0].nonce, s.frames[0].data);
    Assoc(f, s'.arrived, s.inFlight + s.lost);
    Cancel(f, s'.arrived + (s.inFlight + s.lost), WireOf(a, id, s.frames[1..]));
    assert DataOf(s'.frames) == DataOf(s.frames)[1..];
  }

  lemma Cancel(f: Bytes, x: Bytes, y: Bytes)
    requires f + x == f + y
    ensures x == y
  {
    assert x == (f + x)[|f|..] && y == (f + y)[|f|..];
  }

  lemma ArriveWired(a: Aead, id: TF.ConnId, s: State, n: nat)
    requires Wired(a, id, s) && n <= |s.inFlight|
    ensures Wired(a, id, Next(a, id, s, Arrive(n)))
  {
    var x, y := s.inFlight[..n], s.inFlight[n..];
    assert s.inFlight == x + y;
    Assoc(x, y, s.lost);
    Assoc(s.arrived, x, y + s.lost);
  }

  lemma BreakWired(a: Aead, id: TF.ConnId, s: State)
    requires Wired(a, id, s)
    ensures Wired(a, id, Next(a, id, s, Break))
  {
    assert [] + (s.inFlight + s.lost) == s.inFlight + s.lost;
  }

  /** The steps that do not touch the wire. */
  predicate OffWire(ev: Event) {
    !ev.WriteFrame? && !ev.Arrive? && !ev.ReadFrame? && !ev.Break?
  }

  lemma OffWireWired(a: Aead, id: TF.ConnId, s: State, ev: Event)
    requires Wired(a, id, s) && Enabled(a, s, ev) && OffWire(ev)
    ensures Wired(a, id, Next(a, id, s, ev))
  {
  }

  lemma WiredStep(a: Aead, id: TF.ConnId, s: State, ev: Event)
    requires Sound(a) && Wired(a, id, s) && Enabled(a, s, ev)
    ensures Wired(a, id, Next(a, id, s, ev))
  {
    match ev
    case WriteFrame(nonce) => WriteWired(a, id, s, nonce);
    case Arrive(n) => ArriveWired(a, id, s, n);
    case ReadFrame => ReadFrameWired(a, id, s);
    case Break => BreakWired(a, id, s);
    case _ => OffWireWired(a, id, s, ev);
  }

  // ----- conservation -----

  /** Everything between the server's reads and the client's, in order. */
  function OnServer(s: State): Bytes {
    Concat(s.dataCh) + s.serverHand
  }

  function OnClient(s: State): Bytes {
    s.readBuf + Concat(s.readCh) + s.pumpHand + s.decrypted
  }

  function Between(s: State): Bytes {
    OnClient(s) + (Concat(DataOf(s.frames)) + OnServer(s))
  }

  ghost predicate Conserved(s: State) {
    s.remote == s.returned + Between(s)
  }

  lemma ServerSide(a: Aead, id: TF.ConnId, s: State, ev: Event)
    requires Enabled(a, s, ev) && (ev.ServerPush? || ev.WriteFrame?)
    ensures var s' := Next(a, id, s, ev);
      Concat(DataOf(s'.frames)) + OnServer(s') == Concat(DataOf(s.frames)) + OnServer(s)
  {
    var s' := Next(a, id, s, ev);
    if ev.ServerPush? {
      ConcatSnoc(s.dataCh, s.serverHand);
      assert OnServer(s') == OnServer(s);
    } else {
      var data := s.dataCh[0];
      assert DataOf(s'.frames) == DataOf(s.frames) + [data];
      ConcatSnoc(DataOf(s.frames), data);
      Assoc(data, Concat(s.dataCh[1..]), s.serverHand);
      Assoc(Concat(DataOf(s.frames)), data, OnServer(s'));
    }
  }

  lemma RemoteReadConserves(a: Aead, id: TF.ConnId, s: State, chunk: Bytes)
    requires Conserved(s) && Enabled(a, s, RemoteRead(chunk))
    ensures Conserved(Next(a, id, s, RemoteRead(chunk)))
  {
  }

  lemma ReadFrameConserves(a: Aead, id: TF.ConnId, s: State)
    requires Sound(a) && Wired(a, id, s) && Conserved(s) && Enabled(a, s, ReadFrame)
    ensures Conserved(Next(a, id, s, ReadFrame))
  {
    var s' := Next(a, id, s, ReadFrame);
    ReadFrameShape(a, id, s);
    var data, rest := s.frames[0].data, Concat(DataOf(s'.frames));
    FirstData(s.frames);
    var front := s.readBuf + Concat(s.readCh) + s.pumpHand;
    assert OnClient(s) == front && OnClient(s') == front + data;
    Assoc(data, rest, OnServer(s));
    Assoc(OnClient(s), data, rest + OnServer(s));
  }

  lemma PumpConserves(a: Aead, id: TF.ConnId, s: State, ev: Event)
    requires Enabled(a, s, ev) && (ev.PumpRead? || ev.PumpPush?)
    ensures OnClient(Next(a, id, s, ev)) == OnClient(s)
  {
    var front := s.readBuf + Concat(s.readCh);
    if ev.PumpRead? {
      var p := FirstBytes(s.decrypted, PUMP_BUFFER);
      assert front + [] == front && s.decrypted == p + s.decrypted[|p|..];
      Assoc(front, p, s.decrypted[|p|..]);
    } else {
      ConcatSnoc(s.readCh, s.pumpHand);
      Assoc(s.readBuf, Concat(s.readCh), s.pumpHand);
      assert front + s.pumpHand + [] == front + s.pumpHand;
    }
  }

  lemma ReadConserves(a: Aead, id: TF.ConnId, s: State, room: nat)
    requires Conserved(s) && Enabled(a, s, Read(room))
    ensures Conserved(Next(a, id, s, Read(room)))
  {
    var s' := Next(a, id, s, Read(room));
    var (r, buf, ch) := ReadStep(s.readBuf, s.readCh, s.readChClosed, room);
    ReadStepConserves(s.readBuf, s.readCh, s.readChClosed, room);
    var tail := Concat(DataOf(s.frames)) + OnServer(s);
    Assoc(r.p, buf + Concat(ch), s.pumpHand);
    Assoc(r.p, buf + Concat(ch) + s.pumpHand, s.decrypted);
    assert OnClient(s) == r.p + OnClient(s');
    Assoc(r.p, OnClient(s'), tail);
    Assoc(s.returned, r.p, Between(s'));
  }

  lemma ConservedStep(a: Aead, id: TF.ConnId, s: State, ev: Event)
    requires Sound(a) && Wired(a, id, s) && Conserved(s) && Enabled(a, s, ev)
    ensures Conserved(Next(a, id, s, ev))
  {
    match ev
    case RemoteRead(chunk) => RemoteReadConserves(a, id, s, chunk);
    case ServerPush => ServerSide(a, id, s, ev);
    case WriteFrame(_) => ServerSide(a, id, s, ev);
    case ReadFrame => ReadFrameConserves(a, id, s);
    case PumpRead => PumpConserves(a, id, s, ev);
    case PumpPush => PumpConserves(a, id, s, ev);
    case Read(room) => ReadConserves(a, id, s, room);
    case _ =>
  }

  lemma {:induction false} RunConserves(a: Aead, id: TF.ConnId, es: seq<Event>)
    requires Sound(a) && After(a, id, es).Some?
    ensures Wired(a, id, After(a, id, es).value) && Conserved(After(a, id, es).value)
  {
    if es == [] {
    } else {
      var s := After(a, id, es[..|es| - 1]).value;
      RunConserves(a, id, es[..|es| - 1]);
      WiredStep(a, id, s, es[|es| - 1]);
      ConservedStep(a, id, s, es[|es| - 1]);
    }
  }

  /** For any read sizes, any scheduling, any delivery by the network, wherever the response breaks
      and whenever the connection is closed: what tunnelConn.Read returned is a beginning of what
      the server read from the remote, all of it if nothing is left in between; and the stream
      reader never refuses a frame, for its size or for any other reason. */
  lemma ReadsArePrefix(a: Aead, id: TF.ConnId, es: seq<Event>)
    requires Sound(a) && After(a, id, es).Some?
    ensures var s := After(a, id, es).value;
      && s.returned <= s.remote
      && (s.returned == s.remote <==> Between(s) == [])
      && !s.rejected
  {
    RunConserves(a, id, es);
  }

  // ----- the end of the file -----

  /** Every byte the server read from the remote. */
  function RemoteBytes(es: seq<Event>): Bytes {
    if es == [] then []
    else RemoteBytes(es[..|es| - 1]) + if es[|es| - 1].RemoteRead? then es[|es| - 1].chunk else []
  }

  predicate NoneEmpty(ps: seq<Bytes>) {
    forall i :: 0 <= i < |ps| ==> ps[i] != []
  }

  /** A channel is within its bounds and holds no empty chunk. */
  predicate Channel(ch: seq<Bytes>) {
    |ch| <= CHANNEL_SIZE && NoneEmpty(ch)
  }

  /** The client's channel is closed only by the pump, when the response has ended and nothing whole is
      left of it. */
  ghost predicate ClosedAtEnd(a: Aead, s: State) {
    s.readChClosed ==>
      && s.pumpDone && s.pumpHand == [] && s.decrypted == []
      && s.broken && s.inFlight == [] && NextUnit(a, s.arrived) == BodyEnds
  }

  ghost predicate Flowing(a: Aead, s: State) {
    Channel(s.dataCh) && Channel(s.readCh) && ClosedAtEnd(a, s)
  }

  lemma ChannelUses(ch: seq<Bytes>, x: Bytes)
    requires Channel(ch)
    ensures |ch| < CHANNEL_SIZE && x != [] ==> Channel(ch + [x])
    ensures ch != [] ==> Channel(ch[1..])
  {
  }

  lemma ChannelsStep(a: Aead, id: TF.ConnId, s: State, ev: Event)
    requires Channel(s.dataCh) && Channel(s.readCh) && Enabled(a, s, ev)
    ensures Channel(Next(a, id, s, ev).dataCh) && Channel(Next(a, id, s, ev).readCh)
  {
    match ev
    case ServerPush => ChannelUses(s.dataCh, s.serverHand);
    case WriteFrame(_) => ChannelUses(s.dataCh, []);
    case PumpPush => ChannelUses(s.readCh, s.pumpHand);
    case Read(_) => ChannelUses(s.readCh, []);
    case _ =>
  }

  lemma ClosedStep(a: Aead, id: TF.ConnId, s: State, ev: Event)
    requires (s.broken ==> s.inFlight == []) && ClosedAtEnd(a, s) && Enabled(a, s, ev)
    ensures ClosedAtEnd(a, Next(a, id, s, ev))
  {
    if ev.Arrive? && s.inFlight == [] {
      assert s.arrived + s.inFlight[..ev.n] == s.arrived;
    }
  }

  lemma {:induction false} FlowingAlways(a: Aead, id: TF.ConnId, es: seq<Event>)
    requires Sound(a) && After(a, id, es).Some?
    ensures var s := After(a, id, es).value;
      Flowing(a, s) && s.remote == RemoteBytes(es) && (s.readChClosed <==> PumpStop(false) in es)
  {
    if es == [] {
    } else {
      var n := |es| - 1;
      FlowingAlways(a, id, es[..n]);
      var s := After(a, id, es[..n]).value;
      assert s.broken ==> s.inFlight == [] by { RunConserves(a, id, es[..n]); }
      ChannelsStep(a, id, s, es[n]);
      ClosedStep(a, id, s, es[n]);
      assert es == es[..n] + [es[n]];
    }
  }

  /** What tunnelConn.Read would return now. */
  function ReadNow(s: State, room: nat): ConnRead {
    ReadStep(s.readBuf, s.readCh, s.readChClosed, room).0
  }

  /** In every run tunnelConn.Read comes to the end of the file exactly when the pump has met the end of
      the response and everything it passed on was returned. Then all that arrived whole was
      returned: what is missing of the remote's bytes is in a frame that never wholly arrived, or
      after it. */
  lemma EndOfFileIff(a: Aead, id: TF.ConnId, es: seq<Event>, room: nat)
    requires Sound(a) && After(a, id, es).Some?
    ensures var s := After(a, id, es).value;
      && (ReadNow(s, room) == EndOfFile <==> s.readBuf == [] && s.readCh == [] && PumpStop(false) in es)
      && (ReadNow(s, room) == EndOfFile ==>
            && RemoteBytes(es) == s.returned + (Concat(DataOf(s.frames)) + OnServer(s))
            && StreamEnd(a, s.arrived) == BodyEnds && Stream(a, s.arrived) == [])
  {
    FlowingAlways(a, id, es);
    RunConserves(a, id, es);
    var s := After(a, id, es).value;
    if ReadNow(s, room) == EndOfFile {
      assert OnClient(s) == [];
      assert Between(s) == Concat(DataOf(s.frames)) + OnServer(s);
    }
  }

  // ----- everything can get through -----

  /** How much work is left until everything in between is returned. */
  function Weight(s: State): nat {
    var hand := if s.serverHand == [] then 0 else 1;
    hand + 60 * (|s.dataCh| + hand) + 7 * |OnServer(s)| + |s.inFlight| + |s.frames|
      + 5 * |Concat(DataOf(s.frames))| + 4 * |s.decrypted| + 3 * |s.pumpHand| + 2 * |Concat(s.readCh)| + |s.readBuf|
  }

  /** A step that brings bytes further: not one of the remote, and not an end of anything. */
  predicate Forward(ev: Event) {
    !ev.RemoteRead? && !ev.Break? && !ev.PumpStop?
  }

  lemma ServerMoves(a: Aead, id: TF.ConnId, s: State, ev: Event)
    requires Sound(a) && Enabled(a, s, ev) && (ev.ServerPush? || ev.WriteFrame?)
    ensures Weight(Next(a, id, s, ev)) < Weight(s)
  {
    var s' := Next(a, id, s, ev);
    if ev.ServerPush? {
      ConcatSnoc(s.dataCh, s.serverHand);
    } else {
      SealedSize(a, id, ev.nonce, s.dataCh[0]);
      assert DataOf(s'.frames) == DataOf(s.frames) + [s.dataCh[0]];
      ConcatSnoc(DataOf(s.frames), s.dataCh[0]);
    }
  }

  lemma FrameMoves(a: Aead, id: TF.ConnId, s: State)
    requires Sound(a) && Wired(a, id, s) && Enabled(a, s, ReadFrame)
    ensures Weight(Next(a, id, s, ReadFrame)) < Weight(s) && !Next(a, id, s, ReadFrame).pumpDone
  {
    ReadFrameShape(a, id, s);
    FirstData(s.frames);
  }

  lemma ClientMoves(a: Aead, id: TF.ConnId, s: State, ev: Event)
    requires Enabled(a, s, ev) && NoneEmpty(s.readCh)
    requires ev.PumpRead? || ev.PumpPush? || ev == Read(1) || (ev.Arrive? && ev.n > 0)
    ensures Weight(Next(a, id, s, ev)) < Weight(s)
  {
    if ev.PumpPush? {
      ConcatSnoc(s.readCh, s.pumpHand);
    }
  }

  /** If all that was sent has arrived, the next frame can be read. */
  lemma FrameIsThere(a: Aead, id: TF.ConnId, s: State)
    requires Sound(a) && Wired(a, id, s) && s.inFlight == [] && s.lost == [] && s.frames != []
    ensures NextUnit(a, s.arrived) != BodyEnds
  {
    assert s.arrived == WireOf(a, id, s.frames);
    assert DataOf(s.frames)[0] == s.frames[0].data;
    FrameComesBack(a, id, s.frames[0].nonce, s.frames[0].data, WireOf(a, id, s.frames[1..]));
  }

  /** What is on the client can move on, or a frame can. */
  lemma ClientCanMove(a: Aead, id: TF.ConnId, s: State) returns (ev: Event)
    requires Sound(a) && Wired(a, id, s) && Flowing(a, s) && !s.broken && !s.pumpDone && s.inFlight == []
    requires OnClient(s) != [] || s.frames != []
    ensures Enabled(a, s, ev) && (ev == Read(1) || ev == PumpPush || ev == PumpRead || ev == ReadFrame)
    ensures Weight(Next(a, id, s, ev)) < Weight(s) && !Next(a, id, s, ev).pumpDone
  {
    if s.readBuf != [] || s.readCh != [] {
      ev := Read(1);
      ClientMoves(a, id, s, ev);
    } else if s.pumpHand != [] {
      ev := PumpPush;
      ClientMoves(a, id, s, ev);
    } else if s.decrypted != [] {
      ev := PumpRead;
      ClientMoves(a, id, s, ev);
    } else {
      ev := ReadFrame;
      FrameIsThere(a, id, s);
      FrameMoves(a, id, s);
    }
  }

  lemma Kept(a: Aead, id: TF.ConnId, s: State, ev: Event)
    requires Enabled(a, s, ev) && Forward(ev)
    ensures Next(a, id, s, ev).broken == s.broken && Next(a, id, s, ev).remote == s.remote
    ensures !ev.ReadFrame? ==> Next(a, id, s, ev).pumpDone == s.pumpDone
  {
  }

  /** Unless the response broke or the pump stopped, some step can bring on whatever is in between. */
  lemma SomethingMoves(a: Aead, id: TF.ConnId, s: State) returns (ev: Event)
    requires Sound(a) && Wired(a, id, s) && Flowing(a, s) && !s.broken && !s.pumpDone && Between(s) != []
    ensures Enabled(a, s, ev) && Forward(ev)
    ensures var s' := Next(a, id, s, ev);
      Weight(s') < Weight(s) && !s'.broken && !s'.pumpDone && s'.remote == s.remote
  {
    if s.serverHand != [] && |s.dataCh| < CHANNEL_SIZE {
      ev := ServerPush;
      ServerMoves(a, id, s, ev);
    } else if s.dataCh != [] {
      ev := WriteFrame(seq(NONCE_SIZE, _ => 0));
      ServerMoves(a, id, s, ev);
    } else if s.inFlight != [] {
      ev := Arrive(|s.inFlight|);
      ClientMoves(a, id, s, ev);
    } else {
      ev := ClientCanMove(a, id, s);
    }
    Kept(a, id, s, ev);
  }

  /** A longer run, by such steps. */
  predicate Onward(es: seq<Event>, longer: seq<Event>) {
    es <= longer && forall i :: |es| <= i < |longer| ==> Forward(longer[i])
  }

  lemma OnwardOn(es: seq<Event>, ev: Event, longer: seq<Event>)
    requires Forward(ev) && Onward(es + [ev], longer)
    ensures Onward(es, longer)
  {
  }

  lemma OneMore(a: Aead, id: TF.ConnId, es: seq<Event>, ev: Event)
    requires After(a, id, es).Some? && Enabled(a, After(a, id, es).value, ev)
    ensures After(a, id, es + [ev]) == Some(Next(a, id, After(a, id, es).value, ev))
  {
    assert (es + [ev])[..|es|] == es;
  }

  /** From every state that any run reaches, as long as the response is not broken and the pump not
      stopped, the run can go on, without anything more from the remote, until tunnelConn.Read has
      returned every byte the server read. */
  lemma {:induction false} EverythingCanArrive(a: Aead, id: TF.ConnId, es: seq<Event>, s: State)
      returns (longer: seq<Event>, s': State)
    requires Sound(a) && After(a, id, es) == Some(s) && !s.broken && !s.pumpDone
    ensures Onward(es, longer) && After(a, id, longer) == Some(s') && s'.returned == s'.remote == s.remote
    decreases Weight(s)
  {
    assert Conserved(s) && Wired(a, id, s) by { RunConserves(a, id, es); }
    if Between(s) == [] {
      longer, s' := es, s;
    } else {
      assert Flowing(a, s) by { FlowingAlways(a, id, es); }
      var ev := SomethingMoves(a, id, s);
      OneMore(a, id, es, ev);
      longer, s' := EverythingCanArrive(a, id, es + [ev], Next(a, id, s, ev));
      OnwardOn(es, ev, longer);
    }
  }
}
