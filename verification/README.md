# Verified model of a C libp2p stack

This project models the hard core of a C11 libp2p implementation that works in caller-provided storage with
fixed tables and synchronous drive loops, and proves what the code promises about it:

- **The host** (`Host*.dfy`, `Ring.dfy`). `Host` gives the tables of connections, streams, stream opens and dials,
  the queue of public events, and every public call and drive step as a function on them; slot indices stand for
  pointers. `HostInv` states one invariant over all of it, `HostTables` says how one change to one table affects each
  part, `HostRelease`, `HostCompletion`, `HostOpening`, `HostEvents`, `HostCascade` and `HostRuns` carry it through
  every operation, `HostLife`, `HostStreams`, `HostDials` and `HostFrame` say what each step does to connection slots,
  stream slots, dials and history, and `HostProofs`, `HostDials`, `HostArrivals`, `HostHandles`, `HostNotices` and
  `HostClosing` draw the theorems over all runs. `HostImpl` is the host as it runs: a class over arrays, with the event
  ring and the scan loops, proved equal to the functions; `HostDrive` (with `HostExec` and `HostWaiting`) is
  `libp2p_host_drive`, proved to be a sequence of steps of the model that ends only when nothing is left to do.
- **multistream-select** (`Varint`, `Frame`, `Answers`, `Negotiation`, `Session*`, `Misunderstanding`, `Ledger`,
  `StreamImpl`, `Blocking`). Both resumable state machines of the host, composed over two FIFO byte pipes under every interleaving
  and every chunking of reads and writes, and the in-place buffers they work on.
- **The codecs**: base58btc (`Radix`, `Base58`, `Base58Impl`), multiaddr and its text form (`Multihash`, `Multiaddr`,
  `Ip`, `PeerText`, `MultiaddrText` and their `Impl` modules), and the gossipsub RPC codec (`Gossip*`). `IpGrammar`,
  `MultiaddrSchema` and `GossipSchema` say in literals what is on the wire and which texts and bytes are accepted,
  independently of the writers.

What the model takes from outside: the transport and the protocol callbacks are oracles. Their answers are labels of a
run in `Host`; in `HostDrive` they are arbitrary choices, and what the transport has to report is an arbitrary
sequence. Callbacks do not re-enter the host. The transport's contract is that a handle is not reported established
again while the slot of its closed connection is live, that reads and writes never exceed what was asked, and that
chunks are taken off a FIFO. In the runs of `Host` the outcome of one negotiation step (nothing yet, agreed, failed)
is a label too; in `HostDrive` it comes from the step of `Negotiation` that the record in the stream's own slot takes.
Fields named as history (`lost`, `issued`, `resolved`, `born`, `calls`, `driving`, `order`, `id`, `incarnation`) exist
in the model only: they record what the theorems speak about.

Four places where the code does less than one would expect are proved as such, each with the exact condition:

- `Misunderstanding`: a proposed protocol id that is literally `na` and not registered makes the initiator take the
  refusal for an agreement.
- `SessionEnds`: a common protocol is not enough for an agreement. When the first proposal is literally `ls`, the
  initiator fails on the listing and never proposes the fallback; two hosts can agree exactly when the responder has one
  of the proposals, the first is not `ls`, and no unregistered `na` stands where it is proposed.
- `HostHandles`: the stream handle in STREAM_OPENED is stale exactly when, between the queueing and the consumption of
  the event, the protocol of that slot was told CLOSED (and may have accepted it) or refused what it was told; the slot
  may by then be free or hold another stream. The guard in `libp2p_host_next_event` tells the two cases apart.
- `HostClosing`: HOST_CLOSED is not the last event exactly when the transport reports a connection established, with a
  slot free for it, in the rest of the drive that closed the host.

## Model

| member | source | states |
|---|---|---|
| `Varint.RoundTrip` | src/multiformats/unsigned_varint/unsigned_varint.c:26-158 | decode(encode(v) ++ rest) = (v, size(v)) for every v below 2^63 and every rest |
| `Varint.Canonical` | src/multiformats/unsigned_varint/unsigned_varint.c:78-158 | a successful decode consumed exactly the encoding of the value it returned |
| `Varint.ProperPrefixTruncated` | src/multiformats/unsigned_varint/unsigned_varint.c:78-158 | every proper prefix of an encoding decodes as truncated, so encodings are prefix-free |
| `Varint.Stable` | src/multiformats/unsigned_varint/unsigned_varint.c:78-158 | a verdict other than truncated is unchanged by appending bytes |
| `Varint.NineBytesDecide` | src/multiformats/unsigned_varint/unsigned_varint.c:78-158 | nine bytes are always enough for a verdict |
| `Varint.Measure` | src/multiformats/unsigned_varint/unsigned_varint.c:12-24 | the group-counting loop gives the length of the encoding, for every 64-bit word |
| `Varint.EncodeInto` | src/multiformats/unsigned_varint/unsigned_varint.c:26-76 | the buffer gets exactly the encoding at its place and nothing else changes; too large a value and too small a buffer are told apart, and the size is reported either way |
| `Varint.DecodeLoop` | src/multiformats/unsigned_varint/unsigned_varint.c:78-158 | the shift-and-accumulate loop computes the decoding function, errors included |
| `Varint.LittleEndian` | src/multiformats/unsigned_varint/unsigned_varint.c:26-76 | byte i of an encoding holds bits 7i to 7i+6 of the value, its top bit says that more follows, and the last byte of several is not zero |
| `Frame.RoundTrip` | src/multiformats/multistream-select/multistream_select.c:353-465 | decoding inverts encoding, whatever follows the frame |
| `Frame.Canonical` | src/multiformats/multistream-select/multistream_select.c:84-171 | an accepted input starts with the one frame of the payload it yields |
| `Frame.ProperPrefixTruncated` | src/multiformats/multistream-select/multistream_select.c:84-171 | every proper prefix of a frame asks for more input |
| `Frame.Stable` | src/multiformats/multistream-select/multistream_select.c:84-171 | any verdict other than truncated is unchanged by appending bytes |
| `Frame.FullBufferDecides` | src/libp2p/libp2p_host_streams.c:451-460 | with 1026 bytes in the buffer the verdict is never truncated: the "full but truncated" failure branch is dead |
| `Frame.ChunkIndependent` | src/libp2p/libp2p_host_streams.c:418-521 | parsing what was left over plus a new chunk gives what parsing the whole would have given |
| `Frame.ChunkingIrrelevant` | src/libp2p/libp2p_host_streams.c:418-521 | the messages read depend on the byte stream only, not on how it is cut into chunks |
| `Answers.OnWire` | src/multiformats/multistream-select/multistream_select.c:353-465 | a message is its length with the newline in one or two literal bytes, the payload, and 0x0A; a payload has at most 1023 bytes |
| `Answers.Accepted` | src/multiformats/multistream-select/multistream_select.c:84-171 | a message is read exactly when the length is from 1 to 1024, all of it is there and it ends in 0x0A; longer ones are too large |
| `Answers.WordFrames` | include/multiformats/multistream-select/multistream_select.h:22-46 | the frames of the opening, the refusal and the list request, byte for byte |
| `Blocking.ReadLength` | src/multiformats/multistream-select/multistream_select.c:508-544 | reading the prefix byte by byte yields the varint's verdict on the whole stream and takes exactly its bytes; its "nine bytes and undecided" branch is dead |
| `Blocking.ReadMessage` | src/multiformats/multistream-select/multistream_select.c:485-593 | the blocking reader returns what the incremental decoder says of the stream and takes exactly one frame, under any sizes of reads; a stream that breaks is reported with its own error, and a payload that does not fit the buffer is taken off the stream and reported with its length |
| `StreamImpl.HostStream.PrepareMessage` | src/libp2p/libp2p_host_streams.c:320-344 | the pending frame becomes the encoding of the payload |
| `StreamImpl.HostStream.SendPending` | src/libp2p/libp2p_host_streams.c:371-416 | a prefix of the pending bytes is handed to the transport, exactly the rest stays pending; would-block and errors as in the step function |
| `StreamImpl.HostStream.ReadOne` | src/libp2p/libp2p_host_streams.c:418-521 | buffer, compaction and payload after a read equal the step function's: one frame is taken off the front, or bytes are appended |
| `StreamImpl.HostStream.OutStep` | src/libp2p/libp2p_host_streams.c:630-769 | the initiator's in-place step over its buffers equals the step function of the protocol model |
| `StreamImpl.HostStream.InStep` | src/libp2p/libp2p_host_streams.c:771-891 | the responder's in-place step equals the step function of the protocol model, ls and na answers included; the listing is written by its own loop |
| `StreamImpl.HostStream.NegotiationStep` | src/libp2p/libp2p_host_streams.c:893-938 | one negotiation step of either side equals the step function, the progress it reports included |
| `StreamImpl.EncodeListing` | src/multiformats/multistream-select/multistream_select.c:646-694 | the loop over the registry writes the listing, or finds beforehand that it does not fit one message |
| `Answers.ListingReads` | src/multiformats/multistream-select/multistream_select.c:673-688 | what is listed splits, frame after frame, into exactly the registered ids in order, for every registry |
| `Answers.ListingCanonical` | src/multiformats/multistream-select/multistream_select.c:696-756 | a payload that splits into ids is the listing of just those ids |
| `Answers.ReadListing` | src/multiformats/multistream-select/multistream_select.c:696-756 | the decoding loop computes the splitting function, up to the end or to the first frame that cannot be read |
| `Answers.ReachedSpeaks` | src/libp2p/libp2p_host_streams.c:630-938 | in every negotiation, against any peer, what a host has pending is the one message of its state: the literal opening, the id it proposes or has accepted, the literal refusal, or a frame whose payload lists all its protocols |
| `Negotiation.EndReported` | src/libp2p/libp2p_host_streams.c:893-938 | a step that ends the negotiation, in agreement or in failure, reports progress, so the round over negotiating streams stops after it |
| `StreamImpl.HostStream.Read` | src/libp2p/libp2p_host_streams.c:1386-1441 | stream_read serves buffered bytes first, in order, then the transport |
| `SessionProofs.RunKeeps` | src/libp2p/libp2p_host_streams.c:630-891 | every interleaving and chunking of the two composed state machines keeps the protocol invariant |
| `SessionProofs.Agreement` | src/libp2p/libp2p_host_streams.c:630-891 | an initiator that is done has the responder bound to the same id, which is the first of protocol and fallback that the responder supports; a bound responder is bound to that id |
| `SessionProofs.NoDeadlock` | src/libp2p/libp2p_host_streams.c:630-891 | the two sides never both wait for input with both pipes empty |
| `SessionProofs.FailureHasCause` | src/libp2p/libp2p_host_streams.c:630-891 | a step fails only because of the transport, because on_open refused, because neither id is supported and none is "ls" (initiator), or because "ls" goes out as a proposal, as the first id or as the fallback of one that the responder has not: the initiator then takes the listing for no answer, and the responder fails when the listing is too long for a message |
| `SessionProofs.DataConserved` | src/libp2p/libp2p_host_streams.c:1386-1441 | application bytes arrive as sent, neither lost, duplicated nor reordered, also when pipelined behind the negotiation |
| `SessionProofs.AnswerMeaning` | src/libp2p/libp2p_host_streams.c:828-866 | what the responder does with any proposal: it binds the id exactly when it supports it, the answer it prepares is the id exactly then (but for an unregistered "na"), and it fails exactly on an "ls" whose listing is too long |
| `SessionProgress.EveryStepCounts` | src/libp2p/libp2p_host_streams.c:630-891 | a negotiation step of any run that changes anything uses up a measure of messages to prepare and consume, bytes to send and room to read, and nothing else that happens in the run, application data included, adds to it |
| `SessionProgress.CanMove` | src/libp2p/libp2p_host_streams.c:630-891 | in every reachable state where neither end has failed and not both are done, some end has a step that uses up the measure, when the transport takes what is sent and delivers what is there |
| `SessionProgress.Terminates` | src/libp2p/libp2p_host_streams.c:630-891 | from every reachable state without a failure, eager steps, no more than the measure, end with both ends done on the first of protocol and fallback that the responder has; and with a failure exactly when it has neither or the first proposal is "ls" |
| `SessionEnds.BoundedWork` | src/libp2p/libp2p_host_streams.c:630-891 | in every run, however long, at most 26690 negotiation steps change anything |
| `SessionEnds.FairRunsEnd` | src/libp2p/libp2p_host_streams.c:630-891 | every run in which each end has an unhindered step at least once in any n labels has ended after 26690 n of them, whatever else happens in it: with agreement on the first supported id when the configuration allows it and nothing outside spoils it, and with a failure when the configuration does not allow it |
| `SessionEnds.SuccessExactly` | src/libp2p/libp2p_host_streams.c:630-891 | for every configuration some run ends with both ends done on the same id if and only if the responder has one of the proposals, the first is not "ls", and no unregistered "na" stands where it is proposed |
| `SessionEnds.ListingMisread` | src/libp2p/libp2p_host_streams.c:728-760 | with "ls" proposed first no run ever finishes and every fair run fails, although the responder has the fallback |
| `SessionEnds.EndsAreRecords` | src/libp2p/libp2p_host_streams.c:893-938 | each end of every run is what its own steps make of a fresh record, which is what a host keeps in the slot of a negotiating stream; so the theorems about sessions are about slots of two hosts |
| `Negotiation.ReachedPrimed` | src/libp2p/libp2p_host_streams.c:771-938 | after every sequence of steps from a fresh record a responder that is to send has something to send |
| `Negotiation.GoesOn` | src/libp2p/libp2p_host_streams.c:893-938 | a step that neither completes nor fails leaves the negotiation going on |
| `Misunderstanding.AgreementExactly` | src/libp2p/libp2p_host_streams.c:712-757 | agreement holds on every run if and only if a proposed id that is literally "na" is registered at the responder or never reached |
| `Misunderstanding.FirstMisread` | src/libp2p/libp2p_host_streams.c:719-725 | proposing an unregistered "na" ends with the initiator done and the responder unbound |
| `Misunderstanding.FallbackMisread` | src/libp2p/libp2p_host_streams.c:727-747 | so does an unregistered "na" as fallback behind a declined protocol |
| `Ledger.Conservation` | src/libp2p/libp2p_host_streams.c:418-521 | against any peer and any chunking: frames consumed, then bytes handed out, then bytes buffered are exactly the bytes read |
| `HostRuns.ApplyKeeps` | src/libp2p/libp2p_host_drive.c:438-524 | every public call and every step of a drive keeps the whole host invariant |
| `HostRuns.RunKeeps` | src/libp2p/libp2p_host_drive.c:438-524 | the invariant holds in every reachable state, from every valid configuration |
| `HostRuns.FreshKeeps` | src/libp2p/libp2p_host_core.c:524-595 | it holds after initialisation |
| `HostProofs.NoEventLost` | src/libp2p/libp2p_host_drive.c:365-369 | no event push ever finds the ring full, even when a connection close fails every pending open |
| `HostProofs.HandlesLive` | src/libp2p/libp2p_host_streams.c:136-180 | every connection handle held by a stream, an open or a queued event is live, and a queued CONN_CLOSED is the last event naming its connection |
| `HostProofs.RecycledSafely` | src/libp2p/libp2p_host_streams.c:136-180 | a slot goes unused, up, closed, read, unused, each move for one reason only; when it is zeroed its CONN_CLOSED has been consumed and no stream, open or queued event names it |
| `HostLife.StepMoves` | src/libp2p/libp2p_host_drive.c:122-176 | every step moves every connection slot along that life cycle or leaves it where it was |
| `HostProofs.ResolvedOnce` | src/libp2p/libp2p_host_core.c:745-807 | every accepted open attempt is reported at most once, by an event or a successful cancel; until then exactly one slot holds it and afterwards none |
| `HostProofs.OpensLedger` | src/libp2p/libp2p_host_streams.c:1093-1310 | attempts are issued exactly by successful open calls and resolved exactly by consumed events that carry them and successful cancels |
| `HostProofs.OpensMatched` | src/libp2p/libp2p_host_streams.c:523-628 | EVENTED opens and queued events match one to one, and NEGOTIATING opens and outbound negotiating streams do |
| `HostProofs.CancelFinds` | src/libp2p/libp2p_host_streams.c:1245-1310 | the "stream not found" branch of cancel is dead: its state error means that the open has been reported |
| `HostProofs.NoStarvation` | src/libp2p/libp2p_host_streams.c:204-262 | both reference counts are exact, and a stream slot is refused if and only if that very connection is at its own limit |
| `HostProofs.CallbackTrace` | src/libp2p/libp2p_host_protocols.c:68-174 | every stream incarnation hears on_open first and once, then data or reset, then at most one closed, and nothing after a closed or a refusal, across slot reuse |
| `HostProofs.IncarnationsApart` | src/libp2p/libp2p_host_streams.c:204-262 | no two slots hold the same incarnation |
| `HostStreams.SlotTurns` | src/libp2p/libp2p_host_streams.c:204-295 | every step moves every stream slot along its life cycle (taken under the transport's handle on the right connection, agreed, notified, let go), each move for one reason, or leaves it where it was |
| `HostArrivals.IncomingTaken` | src/libp2p/libp2p_host_drive.c:204-240 | a stream of the peer is taken in, under its own handle and on the connection with the transport's handle, exactly when that connection is open and below its own limit; otherwise nothing changes |
| `HostArrivals.EstablishedTaken` | src/libp2p/libp2p_host_drive.c:5-35 | a connection is taken in exactly when its handle is known or a slot is free; CONN_ESTABLISHED then names a slot with that handle |
| `HostArrivals.OpenTaken` | src/libp2p/libp2p_host_streams.c:1093-1199 | an open is accepted exactly under the listed conditions, and then its stream starts or the open waits, with the caller's user data |
| `HostArrivals.RetryTaken` | src/libp2p/libp2p_host_streams.c:1004-1062 | a waiting open that gets a stream starts it, or is reported failed when the connection is at its limit |
| `HostArrivals.CancelTaken` | src/libp2p/libp2p_host_streams.c:1245-1310 | cancel succeeds exactly for an open not yet reported and named by its user data, and then open and stream are gone without an event |
| `HostArrivals.EndedTaken` | src/libp2p/libp2p_host_drive.c:122-176 | when a connection ends, all its opens are reported, its negotiating streams are gone, and CONN_CLOSED is queued last; the end of one that has ended changes nothing |
| `HostArrivals.ClosingRefuses` | src/libp2p/libp2p_host_core.c:668-716 | once the host has been closed no run accepts a dial or an open again |
| `HostNotices.CallsHaveCauses` | src/libp2p/libp2p_host_protocols.c:95-174 | every READABLE, WRITABLE, RESET and CLOSED callback of every run tells the foremost pending notification (reset, then closed, then readable, then writable), and since the incarnation was last told the same there was a cause: a transport event about its stream, the end of its connection, or its own coming up |
| `HostNotices.CausesAreHeard` | src/libp2p/libp2p_host_drive.c:242-295 | no cause gets lost: at any later moment of the run the notification is pending, or the protocol has been told since, or the stream has been given back for good |
| `HostProofs.DialsMatched` | src/libp2p/libp2p_host_dial.c:5-119 | EVENTED dials and the queued events that carry them match one to one |
| `HostDials.DialsTurn` | src/libp2p/libp2p_host_drive.c:5-201 | what every step does to every dial slot and to the events that carry a dial: accepted by a dial call, resolved by the transport's word on its attempt, freed when its event is consumed, otherwise left alone |
| `HostDials.DialWaits` | src/libp2p/libp2p_host_dial.c:67-118 | until that word an accepted dial waits in its slot with the attempt and the user data that it was made for |
| `HostDials.DialHeard` | src/libp2p/libp2p_host_drive.c:5-201 | a waiting dial is resolved by exactly the transport's word on its attempt (a connection with a slot for it, a failure, the end of an unknown connection), if no other waits for the same; then one event with its slot and user data is queued |
| `HostDials.ReportsHaveCauses` | src/libp2p/libp2p_host_drive.c:5-201 | in every run, every event that carries a dial reports an accepted one, after the word on that very attempt and no earlier one, with the caller's user data |
| `HostDials.ReportedOnce` | src/libp2p/libp2p_host_drive.c:5-201 | an accepted dial is reported at most once: between two reports of a slot another dial was accepted in it |
| `HostDials.ReportStays` | src/libp2p/libp2p_host_core.c:763-769 | a report stays queued, and is the only one for its slot, until the caller consumes it |
| `HostHandles.OpenStreamStays` | src/libp2p/libp2p_host_protocols.c:95-174 | an open stream keeps its slot through every step, exactly until its protocol is told CLOSED or refuses what it is told |
| `HostHandles.OpenedHandle` | src/libp2p/libp2p_host_core.c:770-789 | when STREAM_OPENED is consumed the slot it names is open and holds the announced incarnation if and only if that slot still points at the open attempt, which is the guard in the code; and if and only if since the event was queued the protocol in that slot was not told CLOSED and refused nothing |
| `HostHandles.HandleLives` | src/libp2p/libp2p_host_core.c:770-789 | the same at every moment of every run after the event was queued, consumed or not |
| `HostHandles.StaleHandle` | src/libp2p/libp2p_host_protocols.c:87-91 | two runs where the handle is stale: the protocol refuses its first notification and an incoming stream takes the slot; the stream is closed, the protocol accepts that, and the slot is free |
| `HostClosing.HostClosedLast` | src/libp2p/libp2p_host_drive.c:411-436 | throughout a run nothing is queued behind HOST_CLOSED if and only if no connection is reported established, with a slot free for it, once the host is closed; and then a closed host has nothing left to do |
| `HostClosing.StaysLastExactly` | src/libp2p/libp2p_host_drive.c:438-524 | in a closed, quiet host a step puts something behind HOST_CLOSED if and only if it reports a connection established and there is a free slot |
| `HostClosing.ClosesOnce` | src/libp2p/libp2p_host_drive.c:411-436 | HOST_CLOSED is queued at the one step that closes the host, never again |
| `HostClosing.ClosedNotLast` | src/libp2p/libp2p_host_drive.c:438-524 | a run where HOST_CLOSED is not last: the drive loop goes on after closing the host |
| `HostCascade.CascadeKeeps` | src/libp2p/libp2p_host_drive.c:37-176 | failing every waiting open and every negotiating stream of a connection keeps the invariant and leaves room for its CONN_CLOSED |
| `HostCascade.EndedKeeps` | src/libp2p/libp2p_host_drive.c:122-176 | a closed transport connection keeps the invariant |
| `HostCascade.EstablishedKeeps` | src/libp2p/libp2p_host_drive.c:5-35 | an established connection keeps the invariant, dial and event included |
| `HostCompletion.NegotiateKeeps` | src/libp2p/libp2p_host_streams.c:523-628 | completion, refusal and failure of a negotiation keep the invariant |
| `HostCompletion.Unreferenced` | src/libp2p/libp2p_host_streams.c:136-164 | a recyclable connection is named by no stream, no open and no queued event |
| `HostCompletion.RecycleKeeps` | src/libp2p/libp2p_host_streams.c:136-164 | recycling keeps the invariant |
| `HostOpening.OpenStreamKeeps` | src/libp2p/libp2p_host_streams.c:1093-1199 | opening keeps the invariant, and a call that fails leaves every table as it was |
| `HostOpening.RetryKeeps` | src/libp2p/libp2p_host_streams.c:982-1091 | retrying a waiting open keeps the invariant |
| `HostOpening.IncomingKeeps` | src/libp2p/libp2p_host_drive.c:204-240 | an incoming stream keeps the invariant |
| `HostOpening.OwnerFound` | src/libp2p/libp2p_host_streams.c:1274-1292 | the stream that a negotiating open is looked up by exists and is the only one |
| `HostEvents.NextEventKeeps` | src/libp2p/libp2p_host_core.c:745-807 | consuming an event keeps the invariant |
| `HostEvents.NextEventFails` | src/libp2p/libp2p_host_core.c:745-807 | consuming an event fails exactly when it is the CONN_CLOSED of a connection with no streams or opens left that the transport cannot release; an event that carries an open always succeeds |
| `HostRuns.DeliverKeeps` | src/libp2p/libp2p_host_protocols.c:95-174 | delivering a notification keeps the invariant, whatever the protocol answers |
| `Ring.Pushed` | src/libp2p/libp2p_host_core.c:427-456 | writing at head plus length and lengthening appends to the queue |
| `Ring.Popped` | src/libp2p/libp2p_host_core.c:763-765 | advancing the head and shortening drops the oldest element |
| `HostImpl.LiveHost.constructor` | src/libp2p/libp2p_host_core.c:524-595 | the tables come up empty, with the capacities of the configuration and the registered protocols |
| `HostImpl.LiveHost.EventPush` | src/libp2p/libp2p_host_core.c:427-456 | the ring's contents grow by the event, or the push is refused exactly when the ring is full |
| `HostImpl.LiveHost.NextEventCall` | src/libp2p/libp2p_host_core.c:745-807 | an empty ring answers would-block and changes nothing; otherwise the oldest event is returned, and tables and status equal the specification |
| `HostImpl.LiveHost.Recycle` | src/libp2p/libp2p_host_streams.c:136-164 | the in-place release of a connection slot and its status equal the specification |
| `HostImpl.LiveHost.ReleaseOpen` | src/libp2p/libp2p_host_streams.c:264-276 | the open's slot is zeroed and its connection's count drops |
| `HostImpl.LiveHost.ReleaseStream` | src/libp2p/libp2p_host_streams.c:278-295 | stream slot, counts, open attempt and recycling after a release equal the specification |
| `HostImpl.LiveHost.TakeStream` | src/libp2p/libp2p_host_streams.c:204-262 | the first free slot is taken, with a fresh negotiation record that proposes what its open was asked for, or none when the connection or the table is full |
| `HostImpl.LiveHost.Complete` | src/libp2p/libp2p_host_streams.c:523-573 | completion with the protocol's answer equals the specification |
| `HostImpl.LiveHost.Abandon` | src/libp2p/libp2p_host_streams.c:575-628 | failing a negotiation equals the specification |
| `HostImpl.LiveHost.OpenStreamCall` | src/libp2p/libp2p_host_streams.c:1093-1199 | tables and status after an open call equal the specification, with ids that are empty or not registered and every other error path |
| `HostImpl.LiveHost.CancelCall` | src/libp2p/libp2p_host_streams.c:1245-1310 | tables and status after a cancel equal the specification |
| `HostImpl.LiveHost.DialOut` | src/libp2p/libp2p_host_dial.c:67-119 | the dial call in place equals the specification, status included; HostDials says what becomes of an accepted one |
| `HostImpl.LiveHost.CloseCall` | src/libp2p/libp2p_host_core.c:668-703 | the host starts closing and asks each live connection to close, up to the first refusal, which is the status |
| `HostImpl.LiveHost.CloseConnCall` | src/libp2p/libp2p_host_drive.c:632-654 | a live connection is marked as closed by us exactly when the transport takes the request, every error in its order |
| `HostImpl.LiveHost.HandleEstablished` | src/libp2p/libp2p_host_drive.c:5-35 | slot, dial, event and status after an establishment equal the specification |
| `HostImpl.LiveHost.FailWaitingOpens` | src/libp2p/libp2p_host_drive.c:37-76 | the loop over open slots equals the specification of the cascade's first half |
| `HostImpl.LiveHost.CloseConnStreams` | src/libp2p/libp2p_host_drive.c:78-120 | the loop over stream slots equals the specification of its second half |
| `HostImpl.LiveHost.HandleEnded` | src/libp2p/libp2p_host_drive.c:122-176 | the handler of a closed connection equals the specification, and succeeds exactly when no event was dropped |
| `HostImpl.LiveHost.HandleIncoming` | src/libp2p/libp2p_host_drive.c:204-240 | the handler of an incoming stream equals the specification |
| `HostImpl.LiveHost.HandleStream` | src/libp2p/libp2p_host_drive.c:242-295 | the handler of stream events equals the specification, and succeeds exactly when no event was dropped |
| `HostImpl.LiveHost.HandleTransport` | src/libp2p/libp2p_host_drive.c:297-363 | the dispatch over transport events equals the specification, and fails exactly when an event was dropped, a connection found no slot, or a stream came in on an unknown connection |
| `HostDrive.Drive` | src/libp2p/libp2p_host_drive.c:438-524 | everything libp2p_host_drive does to the tables is a sequence of enabled steps of the model; so it keeps the invariant and loses no event. It fails exactly on a closed host, on an error of the transport's own, and on a step that the source treats as an error. It takes the transport's events in order; and unless it fails or runs into the bound on its turns it returns only when no open stream has a notification pending, the transport has nothing left (or the gate is shut), every quiet connection was offered for release, and, as far as the event ring has room, every waiting open was asked for, every negotiating stream took a step (or the budget is used up), and a closing host without work is closed |
| `HostDrive.TransportOne` | src/libp2p/libp2p_host_drive.c:331-363 | the next ready event is taken in, or nothing happens when there is none; it fails exactly on a transport error or an event that cannot be taken in |
| `HostDrive.RetryOne` | src/libp2p/libp2p_host_streams.c:982-1091 | the round goes over the next slots in turn until one makes progress; whoever waits in a slot it passes is asked for; without progress all slots have been passed and nothing has changed; it fails exactly when one of its steps is faulty |
| `HostDrive.NegotiationOne` | src/libp2p/libp2p_host_streams.c:940-980 | every negotiating slot that the round passes steps its own record, and no other record changes; without progress it has passed all slots or used up the budget, and the tables are unchanged; it fails exactly when one of its steps is faulty |
| `HostDrive.NegotiationStep` | src/libp2p/libp2p_host_streams.c:893-938 | the slot's record takes one step of the negotiation, the tables change as its outcome demands, and every negotiating slot again holds a record that steps from a fresh one of its direction lead to |
| `HostDrive.DeliverOne` | src/libp2p/libp2p_host_protocols.c:95-174 | the notification goes to the first open stream from the cursor on that has one pending, and the cursor moves behind it; without progress no stream has one pending and nothing has changed; it fails exactly when a protocol refuses what it is told |
| `HostDrive.RecycleQuiet` | src/libp2p/libp2p_host_streams.c:166-180 | every connection is visited; a recyclable one is left only if the transport wants to keep it; it fails exactly when the transport fails to release one |
| `HostDrive.HasActiveWork` | src/libp2p/libp2p_host_drive.c:371-409 | the four scans decide whether any work is left |
| `HostDrive.CloseMaybeComplete` | src/libp2p/libp2p_host_drive.c:411-436 | a closing host is closed, with HOST_CLOSED, exactly when no work is left |
| `Base58.RoundTrip` | src/multiformats/multibase/multibase.c:396-803 | decode(encode(x)) = x for every byte string, leading zeros included |
| `Base58.Canonical` | src/multiformats/multibase/multibase.c:694-803 | encode(decode(t)) = t for every valid text, so the two are inverse bijections |
| `Base58.EnoughLetters` | src/multiformats/multibase/multibase.c:55-73 | n bytes never need more than floor(138 n / 100) + 1 letters, for every n |
| `Base58.SizeEnough` | src/multiformats/multibase/multibase.c:886-937 | the reported size holds the encoding of every input whose size computation does not saturate, and saturates exactly beyond that |
| `Base58.Hundred` | src/multiformats/multibase/multibase.c:55-73 | 256^100 <= 58^138, the fact behind the bound |
| `Base58Impl.MulAdd` | src/multiformats/multibase/multibase.c:493-525 | one pass over the digits turns a window that holds n into one that holds n times mult plus add, or reports exactly that it does not fit |
| `Base58Impl.EncodeInto` | src/multiformats/multibase/multibase.c:396-557 | encode succeeds if and only if the buffer holds prefix, leading ones and the minimal letters, and then the buffer begins with the encoding, after in-place digits and forward compaction |
| `Base58Impl.DecodeInto` | src/multiformats/multibase/multibase.c:694-803 | decode's verdict and bytes equal the specification; an invalid character is reported before a lack of room |
| `Base58Impl.DecodedFits` | src/multiformats/multibase/multibase.c:704-711 | the bound that a failed decode reports is always enough |
| `Base58Impl.FindRank` | src/multiformats/multibase/multibase.c:251-269 | the alphabet scan finds the letter's value |
| `Multihash.RoundTrip` | src/multiformats/multihash/multihash.c:88-223 | decoding inverts encoding, whatever follows |
| `Multihash.Canonical` | src/multiformats/multihash/multihash.c:161-223 | an accepted multihash is the encoding of the code and digest returned |
| `Multihash.Forms` | src/multiformats/multihash/multihash.c:33-61 | a whole multihash starts with a zero byte, or is 0x12 0x20 and 32 more bytes |
| `Multiaddr.NextOfBytes` | src/multiformats/multiaddr/multiaddr.c:1137-1428 | the cursor reads back every component that append writes, whatever follows |
| `Multiaddr.NextCanonical` | src/multiformats/multiaddr/multiaddr.c:1137-1285 | a component that was read is exactly the bytes consumed |
| `Multiaddr.ValidateSound` | src/multiformats/multiaddr/multiaddr.c:1100-1135 | a valid multiaddr is the concatenation of its components, all valid |
| `Multiaddr.ValidateComplete` | src/multiformats/multiaddr/multiaddr.c:1100-1135 | every concatenation of valid components is valid and yields them |
| `Multiaddr.PrefixesAgree` | src/multiformats/multiaddr/multiaddr.c:1552-1556 | byte prefixes at component boundaries are component prefixes, and conversely |
| `Multiaddr.DecapsulateExactly` | src/multiformats/multiaddr/multiaddr.c:1485-1590 | decapsulate keeps what precedes the last occurrence of inner as consecutive components, or reports not found exactly when there is none |
| `Multiaddr.DecapsulateUndoes` | src/multiformats/multiaddr/multiaddr.c:1430-1590 | decapsulate(encapsulate(a, b), b) = a for all valid a and b |
| `MultiaddrImpl.Cursor.Next` | src/multiformats/multiaddr/multiaddr.c:1137-1285 | the cursor reads the code, and the length where the protocol has one, by the varint loop, and moves past the component exactly when there is one |
| `MultiaddrImpl.ValidateBuffer` | src/multiformats/multiaddr/multiaddr.c:1100-1135 | the cursor loop computes the validation function |
| `MultiaddrImpl.Append` | src/multiformats/multiaddr/multiaddr.c:1287-1428 | the code and the length go through the varint loop and the component's bytes to the position, which moves even when they do not fit; every error in its order |
| `MultiaddrImpl.EncapsulateInto` | src/multiformats/multiaddr/multiaddr.c:1430-1483 | buffer, length and errors equal the specification |
| `MultiaddrImpl.FindLast` | src/multiformats/multiaddr/multiaddr.c:1528-1561 | the scan over component starts returns the last match |
| `MultiaddrImpl.DecapsulateInto` | src/multiformats/multiaddr/multiaddr.c:1485-1590 | buffer, length and errors equal the specification |
| `Ip.Ipv4RoundTrip` | src/multiformats/multiaddr/multiaddr.c:279-340 | parse(print(x)) = x for every IPv4 address |
| `Ip.Ipv6RoundTrip` | src/multiformats/multiaddr/multiaddr.c:342-701 | parse(print(a)) = a for every IPv6 address |
| `Ip.Canonical` | src/multiformats/multiaddr/multiaddr.c:627-701 | the text leaves out the first longest run of zero groups, and only one of two or more (sections 4.2.2 and 4.2.3 of RFC 5952) |
| `Ip.GroupsAreShort` | src/multiformats/multiaddr/multiaddr.c:586-607 | groups are printed without leading zeros and in lower case (sections 4.1 and 4.3 of RFC 5952) |
| `Ip.NumeralReads` | src/multiformats/multiaddr/multiaddr.c:559-607 | a printed numeral reads back as the number and is as short as can be |
| `IpGrammar.Ipv4Exactly` | src/multiformats/multiaddr/multiaddr.c:279-340 | a text is read as an IPv4 address if and only if it is four decimal numbers up to 255 with dots between them, and the bytes are those numbers in order |
| `IpGrammar.Ipv6Exactly` | src/multiformats/multiaddr/multiaddr.c:342-532 | a text is read as an IPv6 address if and only if it is groups of hexadecimal figures with colons between them, perhaps one "::" for any number of groups, perhaps a dotted IPv4 address at the end, eight groups in all; and the groups are those, zeros for the gap, and the two big-endian words of the dotted address |
| `IpGrammar.GroupMeans` | src/multiformats/multiaddr/multiaddr.c:423-455 | a group is one to four figures in either case, the first the most significant; nothing else is a group |
| `IpGrammar.DecimalMeans` | src/multiformats/multiaddr/multiaddr.c:196-242 | a decimal number is any figures, leading zeros among them, read from the left, up to the given maximum |
| `IpGrammar.MappedReads` | src/multiformats/multiaddr/multiaddr.c:387-415 | "::ffff:a.b.c.d" is read as eighty zero bits, sixteen ones and the four bytes in order, for every address |
| `IpImpl.ReadDecimal` | src/multiformats/multiaddr/multiaddr.c:196-242 | the guarded accumulation accepts exactly the decimal numerals up to max |
| `IpImpl.ReadIpv4` | src/multiformats/multiaddr/multiaddr.c:279-340 | the loop over four parts computes the parsing function |
| `IpImpl.ReadIpv6` | src/multiformats/multiaddr/multiaddr.c:342-532 | the loop over groups, the in-place shift and the zero fill compute the parsing function |
| `IpImpl.FillGap` | src/multiformats/multiaddr/multiaddr.c:489-510 | the in-place shift of groups and the zero fill expand the "::" |
| `IpImpl.FindRun` | src/multiformats/multiaddr/multiaddr.c:647-679 | the scan finds the first longest run, or none of two or more |
| `IpImpl.TextBuffer.PutNumeral` | src/multiformats/multiaddr/multiaddr.c:559-607 | figures are collected last first and written first first; characters beyond the buffer are only counted |
| `PeerText.StartsQm` | src/multiformats/multiaddr/multiaddr.c:731-749 | the base58 text of every sha2-256 multihash starts with "Qm" |
| `PeerText.StartsOne` | src/multiformats/multiaddr/multiaddr.c:731-749 | the base58 text of every identity multihash starts with "1" |
| `PeerText.RoundTrip` | src/multiformats/multiaddr/multiaddr.c:751-989 | every peer id of at most 128 bytes prints, and its text reads back as the peer id |
| `MultiaddrText.TextRoundTrip` | src/multiformats/multiaddr/multiaddr.c:1625-1900 | from_string(to_string(b)) = b for every non-empty valid multiaddr whose /p2p values are at most 128 bytes |
| `MultiaddrText.ValueReads` | src/multiformats/multiaddr/multiaddr.c:1025-1098 | the text of every printable value (IPv4, all 16 bytes of IPv6, port, peer id) reads back as the value and holds no slash |
| `MultiaddrText.PrintsExactly` | src/multiformats/multiaddr/multiaddr.c:1771-1900 | a valid multiaddr prints if and only if its /p2p values are at most 128 bytes |
| `MultiaddrSchema.Table` | src/multiformats/multiaddr/multiaddr.c:32-37 | names, codes and value lengths of the protocols in literals, the alias "ipfs" included, and that there are no others |
| `MultiaddrSchema.OnWire` | src/multiformats/multiaddr/multiaddr.c:1287-1428 | the literal bytes that each valid component begins with, and its value behind them |
| `MultiaddrSchema.Values` | src/multiformats/multiaddr/multiaddr.c:1025-1098 | what a value text means: addresses in network byte order, a port as two bytes with the more significant first |
| `MultiaddrSchema.TextExactly` | src/multiformats/multiaddr/multiaddr.c:1625-1769 | from_string accepts exactly the sequences of known names with their values, each standing for its component |
| `MultiaddrSchema.QuicOverIpv4` | src/multiformats/multiaddr/multiaddr.c:1625-1769 | the bytes of "/ip4/a.b.c.d/udp/p/quic-v1" for every address and port |
| `MultiaddrImpl.PutIpv6` | src/multiformats/multiaddr/multiaddr.c:627-701 | the writer's output is the canonical text |
| `MultiaddrImpl.PutIpv4` | src/multiformats/multiaddr/multiaddr.c:609-625 | the writer's output is the dotted text |
| `MultiaddrImpl.ToString` | src/multiformats/multiaddr/multiaddr.c:1771-1900 | text, reported length and errors equal the specification, also for a buffer that is too short |
| `MultiaddrImpl.FromStringInto` | src/multiformats/multiaddr/multiaddr.c:1625-1769 | bytes, reported length and errors equal the specification; a malformed text is reported before a lack of room |
| `MultiaddrImpl.ReadValue` | src/multiformats/multiaddr/multiaddr.c:1025-1098 | the address loops, the port loop and the peer-id decoder in their buffers compute the value |
| `MultiaddrImpl.ReadLegacyPeer` | src/multiformats/multiaddr/multiaddr.c:751-808 | prefixed text, decoded in place into 128 bytes and checked to be one multihash |
| `MultiaddrImpl.FormatPeer` | src/multiformats/multiaddr/multiaddr.c:944-989 | the peer id goes through the 192-character scratch buffer and loses its prefix, or is refused |
| `GossipWire.ItemConsumes` | src/protocol/gossipsub/gossipsub_codec_wire.c:198-292 | every field consumes input, and never more than there is, so every decoding loop ends |
| `GossipWire.LenFieldReads` | src/protocol/gossipsub/gossipsub_codec_wire.c:104-144 | a length-delimited field reads back as its field number and its bytes, at their place |
| `GossipWire.VarintFieldReads` | src/protocol/gossipsub/gossipsub_codec_wire.c:146-170 | a varint field reads back |
| `GossipWire.ItemsWithin` | src/protocol/gossipsub/gossipsub_codec_wire.c:260-292 | every span that is read lies inside the input |
| `Gossip.ControlExact` | src/protocol/gossipsub/gossipsub_codec_control.c:6-280 | the control size is the length of its encoding, and its entries are within limits |
| `Gossip.BodyExact` | src/protocol/gossipsub/gossipsub_codec_rpc.c:6-196 | the encode pass writes exactly the byte count that the size pass reports |
| `Gossip.FrameExact` | src/protocol/gossipsub/gossipsub_codec_rpc.c:315-397 | and so does the frame |
| `GossipDecode.SlicesConsecutive` | src/protocol/gossipsub/gossipsub_codec_control.c:313-479 | for arbitrary input, the message-id slices of one control section follow each other in the shared table, in wire order, without gap or overlap, within its capacity |
| `GossipSafety.EntriesApart` | src/protocol/gossipsub/gossipsub_codec_control_advert.c:172-395 | two different IHAVE, IWANT or IDONTWANT entries hold disjoint slices, in wire order within a list |
| `GossipSafety.SpansInside` | src/protocol/gossipsub/gossipsub_codec_rpc.c:399-447 | whatever bytes arrive, every span of a decoded RPC lies inside them |
| `GossipRoundTrip.MessageReads` | src/protocol/gossipsub/gossipsub_codec_message.c:84-256 | a message within limits decodes to itself, empty fields being absent |
| `GossipRoundTrip.SubReads` | src/protocol/gossipsub/gossipsub_codec_message.c:300-407 | a subscription decodes to itself up to its flag being 0 or 1 |
| `GossipRoundTrip.IHaveReads` | src/protocol/gossipsub/gossipsub_codec_control_advert.c:120-250 | an IHAVE decodes to its topic and to a slice of the table holding its ids |
| `GossipRoundTrip.IWantReads` | src/protocol/gossipsub/gossipsub_codec_control_advert.c:281-395 | an IWANT or IDONTWANT decodes to a slice of the table holding its ids |
| `GossipRoundTrip.PruneReads` | src/protocol/gossipsub/gossipsub_codec_control_payload.c:213-351 | a PRUNE decodes to its topic and backoff |
| `GossipRoundTrip.GraftReads` | src/protocol/gossipsub/gossipsub_codec_control_payload.c:38-118 | a GRAFT decodes to its topic |
| `GossipRoundTrip.ControlReads` | src/protocol/gossipsub/gossipsub_codec_control.c:110-479 | a control section decodes to itself, given room for its entries and for all ids together |
| `GossipRoundTrip.FrameRoundTrip` | src/protocol/gossipsub/gossipsub_codec_rpc.c:346-447 | frame_decode(frame_encode(rpc)) = rpc for every RPC within limits, backoffs below 2^63 and enough storage |
| `GossipSchema.FrameOnWire` | src/protocol/gossipsub/gossipsub_internal.h:13-55 | every RPC is encoded as the protobuf schema demands, against a second definition of all its messages in literal tag bytes |
| `GossipSchema.SchemaDecodes` | src/protocol/gossipsub/gossipsub_codec_rpc.c:399-447 | bytes written by that definition decode to the RPC they stand for |
| `GossipSchema.UnknownSkipped` | src/protocol/gossipsub/gossipsub_codec_wire.c:198-258 | a field of unknown number in front of a body is skipped, for every number and each of the four wire types |
| `GossipSchema.UnknownAnywhere` | src/protocol/gossipsub/gossipsub_codec_wire.c:198-258 | and so it is wherever it stands among the fields |
| `GossipSchema.OddWireTypes` | src/protocol/gossipsub/gossipsub_codec_wire.c:198-258 | a field of any other wire type makes the body malformed |
| `GossipSchema.PxReads` | src/protocol/gossipsub/gossipsub_codec_control_payload.c:120-351 | a PRUNE with peer-exchange entries, which is only read, decodes to its topic, backoff and peers in order |
| `GossipLimits.LimitsHold` | src/protocol/gossipsub/gossipsub_codec_rpc.c:198-447 | whatever bytes arrive, a decoded RPC keeps to every configured limit and to the capacities of the caller's tables |
| `GossipImpl.EncodeFrameInto` | src/protocol/gossipsub/gossipsub_codec_rpc.c:346-397 | the buffer begins with the encoding and the written count is the reported size, or the size is reported as too large; a body or a backoff of 2^63 or more fails |
| `GossipImpl.PutEntries` | src/protocol/gossipsub/gossipsub_codec_control.c:137-275 | the loop over nested messages writes each behind its key and the length that the size pass reports for it |
| `GossipImpl.PutMessage` | src/protocol/gossipsub/gossipsub_codec_message.c:84-177 | the six fields are written in order, empty ones left out |
| `GossipImpl.PutFields` | src/protocol/gossipsub/gossipsub_codec_control_advert.c:45-75 | the id list is written field by field |
| `GossipImpl.SizeIds` | src/protocol/gossipsub/gossipsub_codec_control_advert.c:6-43 | the running total computes the size function |
| `GossipTables.ReadItem` | src/protocol/gossipsub/gossipsub_codec_wire.c:198-292 | key, span and skip by the varint loop give the next field, or its error |
| `GossipTables.ControlTables.ReadIds` | src/protocol/gossipsub/gossipsub_codec_control_advert.c:172-395 | the loop stores ids in the shared table and moves the cursor as the decoding function says, a full table being noticed first |
| `GossipTables.ControlTables.ReadPrune` | src/protocol/gossipsub/gossipsub_codec_control_payload.c:264-351 | peers go to the shared peer table and the cursor passes those that decode, as the decoding function says |
| `GossipTables.ReadMessage` | src/protocol/gossipsub/gossipsub_codec_message.c:179-256 | the loop over fields computes the decoding function |
| `GossipTables.ReadSub` | src/protocol/gossipsub/gossipsub_codec_message.c:351-407 | the loop over fields computes the decoding function |
| `GossipTables.ControlTables.ReadControl` | src/protocol/gossipsub/gossipsub_codec_control.c:313-479 | entry arrays, counts, id table and peer table after the loop hold what the decoding function gives, errors included; a second section overwrites the first |
| `GossipTables.RpcTables.ReadBody` | src/protocol/gossipsub/gossipsub_codec_rpc.c:198-313 | the same for the whole body over the caller's storage |
| `GossipTables.RpcTables.ReadFrame` | src/protocol/gossipsub/gossipsub_codec_rpc.c:399-447 | and for the frame, whose round trip and safety theorems then speak of the caller's arrays |

## Left out

- The QUIC transport, the TLS and identity code, peer ids beyond their text form, sockets and the interop programs: calls into libraries that are not part of this model.
- The gossipsub router (mesh, caches, transmit queues), ping and identify: not part of this model.
- Pointer, NULL and flag checks, magic numbers, the storage layout and its alignment: C plumbing; a table index replaces a pointer, and capacities are given directly.
- Reasons and error codes carried inside public events, whether a close was asked for locally, and the counters of the drive result: they do not influence the tables.
- Public stream calls other than open, cancel and read (write, finish, reset, stop_sending, queries): they pass the call to the transport and change no table.
- `multistream_select_select_one`, `accept` and `request_ls` over a blocking stream: the resumable state machines of the host are the ones that are composed; of the blocking form only the message reader and the decoder of a listing are modelled.
- base64url, and peer ids given as CIDs: `MultiaddrText` takes the function that reads such texts as a parameter and proves the round trip for every such function.
- size_t overflow outside base58 sizing: sums of lengths of objects in memory are unbounded integers here.
- HostDrive.TransportOne: what the transport reports is arbitrary except that an establishment for a handle whose closed slot is still live is taken as no event.
- GossipImpl.EncodeFrameInto: nested encoders do not repeat their own size checks, which the outer check makes redundant, and the body is taken to be shorter than 2^64 bytes.
- GossipRoundTrip.FrameRoundTrip: a PRUNE to be encoded has no peer-exchange entries, because the encoder never writes them.
