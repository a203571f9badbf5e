# PTBridge in Dafny

A model of the parts of PTBridge that hold state machines, codecs and indexes, with proofs of what
they guarantee. `dafny verify dfyconfig.toml` checks all of it.

| part of the system | modules |
|---|---|
| the client map of turbotunnel: an expiry heap with an address index | `ClientTable` (what it means), `ClientMap` (the heap) |
| QueuePacketConn and RedialPacketConn | `LossyQueue`, `PacketConnCalls`, `OutgoingQueues`, `Redial` |
| the encapsulation of packets and padding in a byte stream | `ChunkGrammar`, `ChunkStream`, `Encapsulation` |
| the HTTP tunnel: requests, uploads, downloads | `Cipher`, `ConnectRequest`, `TunnelFrame`, `TunnelWrite`, `TunnelUpload`, `TunnelStream`, `TunnelPipeline` |
| SOCKS5 and stream targets | `SocksAddress`, `SocksHandshake`, `StreamTarget` |
| shared | `Bytes`, `ByteStreams`, `Wrappers` |

How things are modelled:

- Code that updates objects or loops is a class or a method with its loop, proved against a function
  or a predicate that does not mention the loop. Go's `container/heap` is modelled with the client map,
  because the index depends on every swap it makes.
- Goroutines are state machines. A step is one atomic action of one goroutine, a run is any sequence
  of enabled steps, and the theorems are about every run. Sends on unbuffered channels complete only
  together with a receive. What a `select` picks, whether a send or a dial succeeds, when a timer fires
  and how the network delivers are all up to the run.
- Integers are unbounded; the 16-bit and 32-bit conversions and sums of the code are written out.
  Right shifts and masks are floor divisions and remainders. A slice out of range is an explicit outcome.
- A reader is the bytes it will give and the error after them; a writer is how much it will take.
- AES-GCM is a pair of functions that undo each other and add a tag (`Cipher.Sound`); IP address text
  is a parse and a format function with a stated canonical round trip (`SocksAddress.Canonical`).

Where the code does not do what its comments or names say, the model follows the code:

- `MaxDataForSize` is documented to return the longest length that fits. It falls short at 64, 8192
  and 8193 by one and from 2^20 up by one to three; `MaxDataForSizeShortfall` gives the exact amount.
- `DecodeConnectRequest` computes `2+netLen` in 16 bits, so a network text of 65534 or 65535 bytes
  makes it panic instead of returning an error (`PanicsIff`, `LongNetworkPanics`, `RoundTripIff`).
- `streamReader.Read` computes `10+payloadLen` in 32 bits, so a decrypted frame that announces nearly
  2^32 bytes makes it panic (`PayloadPanicsIff`, `HugeLengthPanics`); the server never builds one.
- A write can be acknowledged without an error and never reach the remote. The server answers a data
  frame with status ok also when the connection is not registered, in which case it drops the data, and
  when writing to the remote failed; `SendData` takes any answer for success (`AcknowledgedButDropped`;
  `UploadsArePrefix` says exactly when it does not happen).
- A zero-length write can spend the flush timer of `pumpWrite` without flushing, after which later
  writes wait until the batch is full or the connection closes (`AlwaysLiveIff`, `EmptyWriteStalls`);
  and an empty write that waits at the closing is never acknowledged (`EmptyWriteUnanswered`).
- The comment on `removeExpired` says "more than timeout in the past"; a record exactly `timeout` old
  is removed too.

## Model

| member | source | states |
|---|---|---|
| `ClientMap.ClientMapInner.Len` | snowflake/common/turbotunnel/clientmap.go:107-112 | in every consistent state both stores have the same size, so the panic is unreachable |
| `ClientMap.IndexedSameSize` | snowflake/common/turbotunnel/clientmap.go:107-112 | an exact inverse index of the heap slice has as many entries as the slice |
| `ClientMap.ClientMapInner.Less` | snowflake/common/turbotunnel/clientmap.go:114-116 | compares last-seen times |
| `ClientMap.ClientMapInner.Swap` | snowflake/common/turbotunnel/clientmap.go:118-122 | exchanges two records and keeps the index the exact inverse, also when both positions are the same |
| `ClientMap.ClientMapInner.Push` | snowflake/common/turbotunnel/clientmap.go:124-133 | appends a record of a new address and indexes it |
| `ClientMap.ClientMapInner.Pop` | snowflake/common/turbotunnel/clientmap.go:135-144 | removes the last record from slice and index |
| `ClientMap.ClientMapInner.SiftUp` | snowflake/common/turbotunnel/clientmap.go:100 | from a heap with one possibly too old record, restores order and keeps the index, by swaps alone |
| `ClientMap.ClientMapInner.SiftDown` | snowflake/common/turbotunnel/clientmap.go:78 | from a heap with one possibly too young record, restores order among the first n records, or reports that nothing had to move |
| `ClientMap.ClientMapInner.HeapPush` | snowflake/common/turbotunnel/clientmap.go:100 | a new record enters; heap and index stay valid and no other record changes |
| `ClientMap.ClientMapInner.HeapPop` | snowflake/common/turbotunnel/clientmap.go:78 | the root leaves; heap and index stay valid and exactly its address is gone |
| `ClientMap.ClientMapInner.HeapFix` | snowflake/common/turbotunnel/clientmap.go:92 | whatever happened to one record's time, heap order is restored |
| `ClientMap.ChangeMakesHole` | snowflake/common/turbotunnel/clientmap.go:91-92 | any change of one time leaves a heap ordered around that place, which is what HeapFix needs |
| `ClientMap.RootIsOldest` | snowflake/common/turbotunnel/clientmap.go:77 | no record is older than the root |
| `ClientMap.ClientMapInner.RemoveExpired` | snowflake/common/turbotunnel/clientmap.go:76-80 | terminates and, looking only at the root, removes exactly the expired records; survivors are the same records with the same times and queues |
| `ClientMap.ClientMapInner.SendQueue` | snowflake/common/turbotunnel/clientmap.go:85-103 | acts on the table as a lookup: new time, old queue or a new one; every other entry is unchanged; neither panic is reachable |
| `ClientMap.RunCalls` | snowflake/common/turbotunnel/clientmap.go:76-103 | any run of lookups and sweeps at any times gives the answers and the table of the plain map |
| `ClientTable.ExpiredIsPlainDifference` | snowflake/common/turbotunnel/clientmap.go:77 | the saturation of `time.Time.Sub` never changes which records are expired, but for the most negative timeout |
| `ClientTable.NoSharedQueue` | snowflake/common/turbotunnel/clientmap.go:85-103 | over any run, lookups of different addresses never get the same queue |
| `ClientTable.SameQueueIff` | snowflake/common/turbotunnel/clientmap.go:76-103 | two lookups of an address get the same queue if and only if no sweep between them came too late after the last lookup before it |
| `ClientTable.RecordAfter` | snowflake/common/turbotunnel/clientmap.go:76-103 | at any point of any run an unexpired record carries the time of its last lookup and its first queue; an expired queue never comes back |
| `LossyQueue.OfferValid` | snowflake/common/turbotunnel/queuepacketconn.go:57-61 | a nonblocking send keeps a queue first-in first-out, at most 32 long, dropping exactly what finds it full |
| `LossyQueue.TakeValid` | snowflake/common/turbotunnel/queuepacketconn.go:81-82 | a receive takes the oldest kept item |
| `PacketConnCalls.InvAlways` | snowflake/common/turbotunnel/queuepacketconn.go:47-124 | over any interleaving of closers, readers, writers and incoming packets: no error is loaded before one is stored, failures report the first close's error, exactly one close returns nil, nothing that begins after the close succeeds, and reads return in order and once each, with their source addresses, the packets that found room |
| `PacketConnCalls.ThreadsFollowCalls` | snowflake/common/turbotunnel/queuepacketconn.go:47-124 | in every run each goroutine is where its own call has brought it, with that call's arguments, or in no call |
| `PacketConnCalls.StepReturns` | snowflake/common/turbotunnel/queuepacketconn.go:47-124 | in every run each step returns what its call should: the first bytes of the oldest packet and its source, the whole length of a write, nil for the one close that shut the channel, and otherwise the first close's error; only a read that returns a packet and a QueueIncoming that found the connection open touch the queue |
| `PacketConnCalls.OffersAreCalls` | snowflake/common/turbotunnel/queuepacketconn.go:47-62 | in every run the receive queue was offered exactly the packets of the QueueIncoming calls that found the connection open, in order and once each |
| `PacketConnCalls.FirstCloseChooses` | snowflake/common/turbotunnel/queuepacketconn.go:108-117 | the error of the close that came first is the one chosen for good, and a nil error becomes "operation on closed connection" |
| `PacketConnCalls.NeverStuck` | snowflake/common/turbotunnel/queuepacketconn.go:70-83 | in every run a call can go on, but for a read while the connection is open and the queue empty, and for a close while another is being made, which can go on; so closing unblocks every read |
| `PacketConnCalls.ClosedForGood` | snowflake/common/turbotunnel/redialpacketconn.go:138-191 | once closed, always closed with the same error |
| `PacketConnCalls.LateReadFails` | snowflake/common/turbotunnel/queuepacketconn.go:72-77 | a read called after the close fails at its first step, whenever that comes, with the first close's error |
| `OutgoingQueues.InvAlways` | snowflake/common/turbotunnel/queuepacketconn.go:67-104 | with lookups and sends as separate steps: the table is that of the calls made, every write goes into a queue made for its own address, and every queue is offered exactly what was sent into it |
| `OutgoingQueues.RecordsAlways` | snowflake/common/turbotunnel/queuepacketconn.go:67-104 | in every run the client map was asked just what the calls ask, each write goes with its own address and packet into the queue its own lookup got, in the order of the sends, a write past its lookup can always complete, and each receive takes one packet |
| `OutgoingQueues.QueuesCarryOwnPackets` | snowflake/common/turbotunnel/queuepacketconn.go:67-104 | over any run a queue holds at most 32 packets, and what came out and what is in it are an in-order selection of the packets written to its one address |
| `Redial.CutAllPointwise` | snowflake/common/turbotunnel/redialpacketconn.go:96-103 | received packets are cut to their first 1500 bytes, each in its place |
| `Redial.TrafficAlways` | snowflake/common/turbotunnel/redialpacketconn.go:58-133 | across any number of redials and workers that outlive their exchange, every packet that left the send queue is with exactly one connection, in order, and every packet a connection received was offered once, in order |
| `Redial.WritesInOrderOnce` | snowflake/common/turbotunnel/redialpacketconn.go:111-127 | what each connection wrote is an in-order selection of the WriteTo calls and of the packets that only it took |
| `Redial.ReadsInOrderOnce` | snowflake/common/turbotunnel/redialpacketconn.go:85-109 | what ReadFrom returned of a connection is an in-order selection, each at most once, of what it received, cut to 1500 bytes |
| `Redial.ErrorNeverSwallowed` | snowflake/common/turbotunnel/redialpacketconn.go:81-133 | from any state in which a worker has an error or is finishing, in any continuation, the waiting select can proceed now or after one enabled worker step, even if the other worker took the signal |
| `Redial.ErrorEndsExchange` | snowflake/common/turbotunnel/redialpacketconn.go:97-126 | so after any error of ReadFrom or WriteTo, and any other event that stops a worker, in every run |
| `Redial.ErrorReceivedOnce` | snowflake/common/turbotunnel/redialpacketconn.go:99-122 | a worker stays blocked sending its error until the loop or the other worker receives it, and that one receive releases it |
| `Redial.StoppedWorkerIsOff` | snowflake/common/turbotunnel/redialpacketconn.go:86-127 | in every run a worker that stopped, for whatever reason, does nothing more but its close |
| `Redial.WorkersCanStop` | snowflake/common/turbotunnel/redialpacketconn.go:88-118 | once closed, or once the other worker speaks, a worker in its select can stop and a reader cannot go on |
| `Redial.NoReadAfterClose` | snowflake/common/turbotunnel/redialpacketconn.go:88-94 | in every run no reader begins a read after the close |
| `Redial.CloseEndsExchange` | snowflake/common/turbotunnel/redialpacketconn.go:113-132 | once closed, the waiting select can proceed after at most two worker steps unless the writer is inside WriteTo |
| `Redial.LoopStops` | snowflake/common/turbotunnel/redialpacketconn.go:60-72 | after a failed dial, or a turn that finds the connection closed, the loop never dials again |
| `Redial.DialsAgain` | snowflake/common/turbotunnel/redialpacketconn.go:67-75 | while the connection is open, a loop that left an exchange closes the old connection and dials a new one |
| `Redial.RecordsAlways` | snowflake/common/turbotunnel/redialpacketconn.go:58-171 | in every run what the queues were offered, what each connection received and wrote, and which took what, are those of the calls and steps made; connections are dialed one at a time, each closed before the next, and the loop stops only when closed, by a caller or a failed dial |
| `Redial.PacketComesIn` | snowflake/common/turbotunnel/redialpacketconn.go:87-107 | on an open connection without a fault a received packet goes into a receive queue that has room |
| `Redial.PacketGoesOut` | snowflake/common/turbotunnel/redialpacketconn.go:113-121 | a packet in the send queue goes out through any worker in its select |
| `Redial.ReturnIsForGood` | snowflake/common/turbotunnel/redialpacketconn.go:86 | from any point of any run on, a returning worker stays so until its deferred close is made, and the close is never undone |
| `Redial.AwakeForGood` | snowflake/common/turbotunnel/redialpacketconn.go:129-132 | once a worker has made its close, the select that waits on its exchange can proceed at every later point of any run |
| `ChunkGrammar.ParseSound` | snowflake/common/encapsulation/encapsulation.go:54-88 | what the decoding loops accept is a chunk of the documented format and nothing is skipped |
| `ChunkGrammar.ParseComplete` | snowflake/common/encapsulation/encapsulation.go:14-31 | every chunk of the format, with a minimal prefix or not, is decoded with what follows left alone |
| `ChunkGrammar.ParseShort` | snowflake/common/encapsulation/encapsulation.go:69-95 | decoding runs short exactly on a proper beginning of a chunk |
| `ChunkGrammar.ParseTooLong` | snowflake/common/encapsulation/encapsulation.go:65-68 | decoding refuses exactly a third prefix byte with the continuation bit |
| `ChunkStream.PaddingInvisible` | snowflake/common/encapsulation/encapsulation.go:89-97 | any padding chunks in front do not change what a read returns |
| `ChunkStream.ReadClassified` | snowflake/common/encapsulation/encapsulation.go:48-53 | on any bytes, exactly when a read ends cleanly, unexpectedly or with a prefix too long |
| `ChunkStream.ReadGot` | snowflake/common/encapsulation/encapsulation.go:48-99 | on any bytes, a read succeeds exactly on padding followed by a whole data chunk, consumes exactly those, and returns at most 0xfffff bytes |
| `ChunkStream.CutStream` | snowflake/common/encapsulation/encapsulation.go:48-99 | a stream cut at any byte gives exactly the data chunks wholly before the cut, then a clean end on a chunk boundary and an unexpected one otherwise |
| `ChunkStream.EntireStream` | snowflake/common/encapsulation/encapsulation.go:48-99 | an entire stream gives all its data chunks in order and then ends cleanly |
| `Encapsulation.ReadData` | snowflake/common/encapsulation/encapsulation.go:54-99 | terminates on any reader and returns what the format says; padding alone ends with the reader's error, a chunk cut off too but for io.EOF, which becomes io.ErrUnexpectedEOF, and a prefix of more than three bytes with ErrTooLong, and there is no other failure |
| `Encapsulation.ReadUntilError` | snowflake/common/standalone/handler.go:128-135 | reading until an error gives the chunks of the whole stream |
| `Encapsulation.DataPrefixForLength` | snowflake/common/encapsulation/encapsulation.go:103-114 | succeeds exactly up to 0xfffff with the shortest documented prefix |
| `Encapsulation.WriteData` | snowflake/common/encapsulation/encapsulation.go:119-133 | puts out the data's chunk as far as the writer takes it and counts the bytes, or nothing at all if the data is too long |
| `Encapsulation.WritePadding` | snowflake/common/encapsulation/encapsulation.go:142-177 | terminates and puts out exactly n bytes unless the writer fails first |
| `Encapsulation.PaddingIsChunks` | snowflake/common/encapsulation/encapsulation.go:137-177 | those bytes are well-formed padding chunks |
| `Encapsulation.MaxDataForSizeShortfall` | snowflake/common/encapsulation/encapsulation.go:183-194 | for every n the result fits, and the true maximum is longer by an exactly given amount |
| `Encapsulation.DataChunkSize` | snowflake/common/encapsulation/encapsulation.go:116-133 | an encoding is as long as its data and the shortest prefix |
| `Encapsulation.WriteThenRead` | snowflake/common/encapsulation/encapsulation.go:54-177 | any data and padding, written, cut anywhere and read back: the data wholly before the cut, in order, then the right error; all of it without a cut |
| `ConnectRequest.EncodeConnectRequest` | dpi/common/serialize.go:9-24 | the filled buffer is the four parts in order |
| `ConnectRequest.PanicsIff` | dpi/common/serialize.go:31-35 | exactly which payloads make the decoder panic |
| `ConnectRequest.LongNetworkPanics` | dpi/common/serialize.go:35 | a network text of 65534 bytes does |
| `ConnectRequest.RefusesIff` | dpi/common/serialize.go:28-41 | exactly which payloads are refused with which error |
| `ConnectRequest.DecodesIff` | dpi/common/serialize.go:27-44 | a request is decoded exactly from payloads that begin with its four parts, the network of at most 65533 bytes |
| `ConnectRequest.RoundTripIff` | dpi/common/serialize.go:9-44 | encode then decode, with anything after it, gives the request back if and only if network and address are within 65533 and 65535 bytes |
| `ConnectRequest.DecodedIsPrefix` | dpi/common/serialize.go:27-44 | what decodes begins with its own encoding |
| `TunnelFrame.ConnectArrivesIff` | dpi/client/transport.go:121-133 | an encrypted connect frame reaches the dialer with the same id, network and address if and only if both fit |
| `TunnelFrame.ConnectDispatched` | dpi/server/handler.go:56-82 | what the server does with a connect frame around any payload |
| `TunnelFrame.DataArrives` | dpi/client/transport.go:172-180 | a data frame of any size, its header length wrapped or not, is dispatched whole, as data for its own connection; whether that connection still has a remote is a matter of `RemoteGot` |
| `TunnelFrame.CloseArrives` | dpi/client/transport.go:202-209 | a close frame closes its connection |
| `TunnelFrame.OtherBodies` | dpi/server/handler.go:44-59 | empty bodies and unknown types are ignored; what does not decrypt or is shorter than a header is a bad request |
| `TunnelFrame.IdGenerator.NextConnID` | dpi/client/transport.go:109-118 | the k-th id is 1 + k mod (2^32 - 1) |
| `TunnelFrame.IssueIds` | dpi/client/transport.go:61-118 | so are all ids of a run from the start |
| `TunnelFrame.IdsCollideIff` | dpi/client/transport.go:109-118 | ids are never 0 and two are equal only a whole number of cycles apart |
| `TunnelWrite.Writer.Flush` | dpi/client/proxy.go:233-249 | every waiting write is acknowledged once with the given outcome, and batch and timer are reset |
| `TunnelWrite.Writer.SendBatch` | dpi/client/proxy.go:251-263 | an empty batch changes nothing; otherwise the batch is sent and flushed, and a failure stops the pump |
| `TunnelWrite.Writer.PumpWrite` | dpi/client/proxy.go:265-294 | the loop follows the specification for any inputs, of which the rows below say what it guarantees |
| `TunnelWrite.RunAccounts` | dpi/client/proxy.go:222-295 | in every run the sends split the acknowledged writes into consecutive batches, each under 64 KiB without its last write; pending acknowledgements are exactly the writes in the batch; none is given twice; at the loop head a timer is set exactly when a write waits |
| `TunnelWrite.NothingLost` | dpi/client/proxy.go:222-295 | sends and pending batch together are the dequeued bytes in order |
| `TunnelWrite.StopsClean` | dpi/client/proxy.go:251-294 | in every run the pump stops exactly on the closing or a failed send, and has then sent every byte written and acknowledged every write but possibly empty ones at the end |
| `TunnelWrite.EmptyWriteUnanswered` | dpi/client/proxy.go:288-292 | an empty write before the closing is never acknowledged |
| `TunnelWrite.SendsAreBatched` | dpi/client/proxy.go:272-292 | in every run there are no more sends of under 64 KiB than timer firings and closings |
| `TunnelWrite.AckIsHonest` | dpi/client/proxy.go:233-263 | an acknowledgement carries the outcome of a SendData that held the whole write |
| `TunnelWrite.NonEmptyStaysSteady` | dpi/client/proxy.go:265-294 | with nonempty writes the timer is running at the loop head exactly when the batch is not empty |
| `TunnelWrite.AlwaysLiveIff` | dpi/client/proxy.go:251-287 | under every schedule, whenever a write waits the timer is running and its firing acknowledges everything that waits, if and only if no write is empty |
| `TunnelWrite.SpentTimerStalls` | dpi/client/proxy.go:281-287 | once the timer is spent, any number of writes that stay below the limit wait: nothing is sent or acknowledged, and only a full batch or closing ends it |
| `TunnelWrite.EmptyWriteStalls` | dpi/client/proxy.go:251-287 | after any nonempty writes, an empty one can leave any later writes, small together, waiting with nothing but a full batch or closing to end it |
| `TunnelWrite.FiresOnce` | dpi/client/proxy.go:284-287 | right after a firing the timer cannot fire again |
| `TunnelUpload.RemoteGot` | dpi/server/handler.go:83-94 | whenever the connection is lost and whatever the remote's writes take or fail, the remote was given the served batches whole and in order, then possibly the beginning of the next and nothing else, and the connection is registered exactly if nothing failed |
| `TunnelUpload.OwnFramesOnly` | dpi/server/handler.go:83-101 | data and close frames of another connection leave this one untouched; its own close frame unregisters it |
| `TunnelUpload.UploadsArePrefix` | dpi/client/transport.go:172-199 | in every run, and however many sends were handled and served, the remote was given the bytes of the first writes in order and once each, up to a send it did not get whole; every write acknowledged without error is among those it got whole if and only if every successful send was served |
| `TunnelUpload.AcknowledgedButDropped` | dpi/server/handler.go:84-88 | one byte written to a connection the server has forgotten is acknowledged without error and given to nobody |
| `TunnelStream.FrameComesBack` | dpi/server/handler.go:201-219 | a download frame gives back its data whatever follows, up to the 256 KiB limit, which chunks of 32 KiB never reach |
| `TunnelStream.PartialFrame` | dpi/client/transport.go:276-290 | a frame not wholly there gives nothing |
| `TunnelStream.PayloadPanicsIff` | dpi/client/transport.go:295-299 | exactly which decrypted frames make the reader panic |
| `TunnelStream.UnitPanicsIff` | dpi/client/transport.go:276-299 | so exactly which frames on the wire do |
| `TunnelStream.HugeLengthPanics` | dpi/client/transport.go:295-299 | a frame with one byte of data that announces 2^32 - 10 does |
| `TunnelStream.PayloadExact` | dpi/client/transport.go:295-299 | any other decrypted frame gives the payload it announces if that is all there, and otherwise nothing |
| `TunnelStream.FrameUnit` | dpi/client/transport.go:276-299 | what the reader makes of any frame: refuses it by its size, fails, panics or goes on behind it |
| `TunnelStream.StreamStopsAt` | dpi/client/transport.go:281-294 | the stream ends, with the right failure, at the first frame that is too large, does not decrypt or panics, after the payloads before it |
| `TunnelStream.StreamOf` | dpi/client/transport.go:266-302 | on any body the reader gets exactly the payloads of the frames it begins with, up to one it cannot get through |
| `TunnelStream.StreamReader.Read` | dpi/client/transport.go:266-302 | on any body and cipher, a read takes from the front of the payloads still to come, loses nothing, fails exactly when there are none, and panics exactly when such a frame follows them |
| `TunnelPipeline.StreamOfWire` | dpi/server/handler.go:195-220 | on any beginning of the server's frames the reader holds a beginning of their data, all of it when all are there, and never refuses or panics |
| `TunnelPipeline.TunnelConn.Read` | dpi/client/proxy.go:179-196 | returns as much as fits of what comes next and keeps the rest, gives io.EOF exactly when nothing is left and the channel is closed, and blocks exactly when nothing is left and it is open |
| `TunnelPipeline.EndOfFileIff` | dpi/client/proxy.go:167-189 | in every run io.EOF comes exactly after the pump met the end of the response and all it passed on was returned; then everything that arrived whole was returned |
| `TunnelPipeline.EverythingCanArrive` | dpi/server/handler.go:129-220 | from every reachable state, while response and pump last, the steps of server, network and client alone can bring every byte read from the remote to the reader |
| `TunnelPipeline.RunConserves` | dpi/client/proxy.go:147-196 | at every point of every run, what was returned and what is in each buffer are together the bytes read from the remote, in order |
| `TunnelPipeline.ReadsArePrefix` | dpi/server/handler.go:129-220 | for any read sizes, scheduling, delivery, breakage and closing, what is returned is a beginning of the remote's bytes, and no frame is ever refused |
| `SocksAddress.ReadFrom` | snowflake/common/socks5/socks5.go:71-108 | reads an address as specified, with the error of each failure |
| `SocksAddress.AddressComesBack` | snowflake/common/standalone/stream.go:84-119 | every address of the format is read back |
| `SocksAddress.ParseAddressSound` | snowflake/common/standalone/stream.go:84-119 | whatever is read is an address of the format and nothing is skipped |
| `SocksAddress.CutAddress` | snowflake/common/socks5/socks5.go:71-108 | an address cut anywhere is refused, with io.EOF between two fields and io.ErrUnexpectedEOF within one, and any other reader error as it is |
| `SocksAddress.UnknownType` | snowflake/common/socks5/socks5.go:100-102 | an unknown address type is refused as such |
| `SocksAddress.RefusedIsCut` | snowflake/common/socks5/socks5.go:71-108 | everything else that is refused is the beginning of an address |
| `SocksHandshake.HandshakeServer` | snowflake/common/socks5/socks5.go:39-111 | follows the specification on any bytes, with the error of each failure, and puts out the reply, as far as the client takes it, exactly when the greeting is complete |
| `SocksHandshake.AcceptedIff` | snowflake/common/socks5/socks5.go:39-111 | accepts exactly a greeting and a CONNECT request of sections 3 to 5 of RFC 1928 and takes no byte more |
| `SocksHandshake.RefusedFor` | snowflake/common/socks5/socks5.go:44-102 | exactly which version, command, address type and failed reply are refused with which error |
| `SocksHandshake.CutShake` | snowflake/common/socks5/socks5.go:39-111 | a client that stops anywhere in an acceptable conversation is refused with the error of the cut |
| `StreamTarget.WriteTarget` | snowflake/common/standalone/stream.go:27-73 | the exact outcome, and in every case what went out: as much of the target's bytes as the writer took |
| `StreamTarget.WriteThenRead` | snowflake/common/standalone/stream.go:27-121 | what WriteTarget wrote without error, ReadTarget reads as the same stream type, canonical host and 16-bit port, or as a forward without target, and leaves what follows; what a failed write left is refused |
| `StreamTarget.RelayRequest` | snowflake/common/socks5/socks5.go:39-111 | a SOCKS client's bytes through HandshakeServer, WriteTarget and ReadTarget: every accepted request arrives with the same port and host, an IP literal sent as a name in canonical form |
| `StreamTarget.CutTarget` | snowflake/common/standalone/stream.go:76-121 | a target cut anywhere is refused with the error of the cut |
| `StreamTarget.ReadTarget` | snowflake/common/standalone/stream.go:76-121 | reads a target as specified, with the error of each failure |
| `StreamTarget.TargetComesBack` | snowflake/common/standalone/stream.go:27-121 | any written target is read back with canonical host text and 16-bit port, and what follows is left alone |
| `StreamTarget.ForwardComesBack` | snowflake/common/standalone/stream.go:31-33 | a forward stream carries no target |
| `StreamTarget.AcceptedRequestComesBack` | snowflake/common/socks5/socks5.go:76-110 | every accepted request is written without error or truncation and comes back with the same port and host, an IP literal sent as a name in canonical form |

## Left out

- Sockets, HTTP, TLS, WebSocket, KCP and smux: libraries; connections are byte or packet streams that may fail.
- AES-GCM itself: only that decryption undoes encryption and the 28 bytes it adds.
- IP address parsing and printing: library code, taken as a canonical pair.
- Readers that return data together with an error, or no data without one: a read gives data or an error.
- Monotonic clock readings of `time.Time`: a time is a number.
- Termination of both workers of `exchange`: a worker can stay blocked on its error channel after the dial loop moved on.
- tunnelConn.Write: how its caller waits for the acknowledgement or the closing; the acknowledgements themselves are modelled.
- Responses that do not come from the server's handler: SendData takes them for success too; the handler is taken to handle a first part of the sends, in order.
- tunnelConn.Read after Close: it may wait for ever, since the channel is not closed on that path.
- Concurrent calls of tunnelConn.Read and several download streams of one connection: one of each is modelled.
- The registration tables of the servers beyond one connection: cleanup deletes by key without checking whose entry it is, so a reused id can lose its entry.
- The DNS resolver and its cache, redirects in Connect, the obfs transports, the proxies, configuration, logging and start-up.
