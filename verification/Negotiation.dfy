/**
  The per-stream negotiation automaton of the host: one transport read or write per step,
  resumable at any byte. Transport answers are parameters.
*/
module Negotiation {
  import opened Bytes
  import Frame

  type Id = p: Frame.Payload | |p| > 0 witness [0]

  /** "/multistream/1.0.0", "na", "ls" */
  const MS: Id := [47, 109, 117, 108, 116, 105, 115, 116, 114, 101, 97, 109, 47, 49, 46, 48, 46, 48]
  const NA: Id := [110, 97]
  const LS: Id := [108, 115]

  datatype NegState =
    | OutSendMs | OutSendProtocol | OutReadMs | OutReadProtocol
    | InReadMs | InReadProtocol | InSendProtocol | InSendNa | InSendLs
    | Done | Failed

  /** inFrame is in_frame[..in_len], outFrame is out_frame[..out_len]. */
  datatype Stream = Stream(
    outbound: bool,
    neg: NegState,
    protocol: Option<Id>,
    fallback: Option<Id>,
    ready: bool,
    inFrame: seq<byte>,
    outFrame: seq<byte>,
    outPos: nat)
  {
    predicate Valid() {
      |inFrame| <= Frame.MAX_ENCODED && |outFrame| <= Frame.MAX_ENCODED && outPos <= |outFrame|
    }

    function Unsent(): seq<byte> {
      if outPos == 0 then outFrame else if outPos < |outFrame| then outFrame[outPos..] else []
    }
  }

  function NewOutbound(protocol: Id, fallback: Option<Id>): Stream {
    Stream(true, OutSendMs, Some(protocol), fallback, false, [], [], 0)
  }

  function NewInbound(): Stream {
    Stream(false, InReadMs, None, None, false, [], [], 0)
  }

  /** Accepts(n): takes n bytes, or the whole request when that is shorter. */
  datatype WriteAnswer = Accepts(count: nat) | WriteWouldBlock | WriteError
  datatype ReadAnswer = Data(bytes: seq<byte>, fin: bool) | ReadWouldBlock | ReadError

  /** Everything one step may learn from outside: the write, the read and the on_open callback. */
  datatype Io = Io(write: WriteAnswer, read: ReadAnswer, onOpen: bool)

  datatype Error = ErrTransport | ErrNegotiation | ErrUnsupported | ErrProtocol | ErrState
  datatype Status = Continue | Blocked | Completed | Failure(error: Error)

  /** The stream after a step, the bytes it exchanged with the transport, the frame it consumed, made_progress. */
  datatype Out = Out(
    stream: Stream,
    wrote: seq<byte>,
    took: seq<byte>,
    message: Option<Frame.Payload>,
    status: Status,
    progress: bool)

  /** Transport contract: a read never returns more than was asked for. */
  predicate Obeys(s: Stream, r: ReadAnswer) {
    r.Data? ==> |r.bytes| <= Frame.MAX_ENCODED - |s.inFrame|
  }

  // ------------------------------------------------------- shared sub-steps

  function Prepare(s: Stream, p: Frame.Payload): (t: Stream)
    ensures s.Valid() ==> t.Valid()
    ensures t.outPos < |t.outFrame|
  {
    Frame.EncodedSize(p);
    s.(outFrame := Frame.Encode(p), outPos := 0)
  }

  function SendPrepared(s: Stream, w: WriteAnswer): (o: Out)
    requires s.Valid()
    ensures o.stream.Valid() && o.stream.outbound == s.outbound
    ensures o.wrote + o.stream.Unsent() == s.Unsent()
    ensures o.took == [] && o.message.None? && o.stream.inFrame == s.inFrame
  {
    if s.outPos >= |s.outFrame| then Out(s, [], [], None, Continue, false)
    else
      match w
      case WriteWouldBlock => Out(s, [], [], None, Blocked, false)
      case WriteError => Out(s, [], [], None, Failure(ErrTransport), false)
      case Accepts(count) =>
        var end := if count < |s.outFrame| - s.outPos then s.outPos + count else |s.outFrame|;
        var sent := s.outFrame[s.outPos..end];
        if end == |s.outFrame| then Out(s.(outFrame := [], outPos := 0), sent, [], None, Continue, true)
        else Out(s.(outPos := end), sent, [], None, if count == 0 then Blocked else Continue, count != 0)
  }

  function Consumed(message: Option<Frame.Payload>): seq<byte> {
    if message.Some? then Frame.Encode(message.value) else []
  }

  /** Consumes the frame at the front of inFrame, if it is complete. */
  function TakeFrame(s: Stream, took: seq<byte>): (o: Out)
    requires s.Valid()
    ensures o.stream.Valid() && o.stream.outbound == s.outbound
    ensures s.inFrame == Consumed(o.message) + o.stream.inFrame
  {
    match Frame.Decode(s.inFrame)
    case Ok(p, n) => Frame.Canonical(s.inFrame); Out(s.(inFrame := s.inFrame[n..]), [], took, Some(p), Continue, true)
    case Truncated => Out(s, [], took, None, Blocked, took != [])
    case _ => Out(s, [], took, None, Failure(ErrNegotiation), took != [])
  }

  function ReadMessage(s: Stream, r: ReadAnswer): (o: Out)
    requires s.Valid() && Obeys(s, r)
    ensures o.stream.Valid() && o.stream.outbound == s.outbound
    ensures s.inFrame + o.took == Consumed(o.message) + o.stream.inFrame
    ensures o.stream == s.(inFrame := o.stream.inFrame) && o.wrote == []
    ensures o.message.Some? ==> o.status == Continue
  {
    if Frame.Decode(s.inFrame) != Frame.Truncated then TakeFrame(s, [])
    else if |s.inFrame| == Frame.MAX_ENCODED then Out(s, [], [], None, Failure(ErrNegotiation), false)
    else
      match r
      case ReadWouldBlock => Out(s, [], [], None, Blocked, false)
      case ReadError => Out(s, [], [], None, Failure(ErrTransport), false)
      case Data(bytes, fin) =>
        var t := s.(inFrame := s.inFrame + bytes);
        assert t.Valid();
        if bytes == [] && fin then Out(t, [], bytes, None, Failure(ErrNegotiation), false)
        else TakeFrame(t, bytes)
  }

  function Complete(o: Out, onOpen: bool): Out {
    if onOpen then o.(stream := o.stream.(neg := Done), status := Completed)
    else o.(status := Failure(ErrProtocol))
  }

  // ------------------------------------------------------------ initiator

  function OutboundStep(s: Stream, io: Io): (o: Out)
    requires s.Valid() && Obeys(s, io.read)
    ensures o.stream.Valid() && o.stream.outbound == s.outbound
    ensures s.inFrame + o.took == Consumed(o.message) + o.stream.inFrame
  {
    match s.neg
    case OutSendMs => SendFrame(s, MS, io.write, OutSendProtocol)
    case OutSendProtocol =>
      if s.protocol.None? then Out(s, [], [], None, Failure(ErrNegotiation), false)
      else SendFrame(s, s.protocol.value, io.write, if s.ready then OutReadProtocol else OutReadMs)
    case OutReadMs =>
      var o := ReadMessage(s, io.read);
      if o.message.None? then o else HearMs(o)
    case OutReadProtocol =>
      var o := ReadMessage(s, io.read);
      if o.message.None? then o else HearProtocol(s, o, io.onOpen)
    case _ => Out(s, [], [], None, Failure(ErrState), false)
  }

  function HearMs(o: Out): (a: Out)
    requires o.stream.Valid() && o.message.Some?
    ensures a.stream.Valid() && a.stream.outbound == o.stream.outbound && a.stream.inFrame == o.stream.inFrame
    ensures a.took == o.took && a.message == o.message
  {
    if o.message.value == MS then o.(stream := o.stream.(ready := true, neg := OutReadProtocol))
    else o.(status := Failure(ErrNegotiation))
  }

  /** The answer to a proposal: taken, declined (try the fallback), or not understood. */
  function HearProtocol(s: Stream, o: Out, onOpen: bool): (a: Out)
    requires o.stream.Valid() && o.message.Some?
    ensures a.stream.Valid() && a.stream.outbound == o.stream.outbound && a.stream.inFrame == o.stream.inFrame
    ensures a.took == o.took && a.message == o.message
  {
    if s.protocol.Some? && o.message.value == s.protocol.value then Complete(o, onOpen)
    else if o.message.value == NA then
      if s.fallback.Some? then
        o.(stream := o.stream.(protocol := s.fallback, fallback := None, neg := OutSendProtocol), progress := true)
      else o.(status := Failure(ErrUnsupported))
    else o.(status := Failure(ErrNegotiation))
  }

  /** Prepares `p` unless a frame is already pending, writes once, moves on when all of it is out. */
  function SendFrame(s: Stream, p: Frame.Payload, w: WriteAnswer, next: NegState): (o: Out)
    requires s.Valid()
    ensures o.stream.Valid() && o.stream.outbound == s.outbound
    ensures o.took == [] && o.message.None? && o.stream.inFrame == s.inFrame
  {
    FlushTo(if s.outFrame == [] then Prepare(s, p) else s, w, next)
  }

  function FlushTo(s: Stream, w: WriteAnswer, next: NegState): (o: Out)
    requires s.Valid()
    ensures o.stream.Valid() && o.stream.outbound == s.outbound
    ensures o.took == [] && o.message.None? && o.stream.inFrame == s.inFrame
  {
    var o := SendPrepared(s, w);
    if o.status == Continue && o.stream.outFrame == []
    then o.(stream := o.stream.(neg := next), progress := true) else o
  }

  // ------------------------------------------------------------ responder

  /** The payload of an "ls" answer: the registered ids, each framed. */
  function LsPayload(registry: seq<Id>): seq<byte> {
    Frame.Encodes(registry)
  }

  function InboundStep(registry: seq<Id>, s: Stream, io: Io): (o: Out)
    requires s.Valid() && Obeys(s, io.read)
    ensures o.stream.Valid() && o.stream.outbound == s.outbound
    ensures s.inFrame + o.took == Consumed(o.message) + o.stream.inFrame
  {
    match s.neg
    case InReadMs =>
      var o := ReadMessage(s, io.read);
      if o.message.None? then o
      else if o.message.value == MS then Answer(o, MS, InSendProtocol)
      else o.(status := Failure(ErrNegotiation))
    case InSendProtocol =>
      if s.protocol.None? then FlushTo(s, io.write, InReadProtocol)
      else
        var o := SendPrepared(s, io.write);
        if o.status == Continue && o.stream.outFrame == [] then Complete(o, io.onOpen) else o
    case InReadProtocol =>
      var o := ReadMessage(s, io.read);
      if o.message.None? then o else Judge(registry, o, o.message.value)
    case InSendNa => FlushTo(s, io.write, InReadProtocol)
    case InSendLs => FlushTo(s, io.write, InReadProtocol)
    case _ => Out(s, [], [], None, Failure(ErrState), false)
  }

  /** What the responder does with a request: list, accept or decline. */
  function Judge(registry: seq<Id>, o: Out, request: Frame.Payload): (a: Out)
    requires o.stream.Valid()
    ensures a.stream.Valid() && a.stream.outbound == o.stream.outbound && a.stream.inFrame == o.stream.inFrame
    ensures a.took == o.took && a.message == o.message
  {
    if request == LS then
      if |LsPayload(registry)| <= Frame.MAX_PAYLOAD then Answer(o, LsPayload(registry), InSendLs)
      else o.(status := Failure(ErrNegotiation))
    else if request in registry then
      Answer(o.(stream := o.stream.(protocol := Some(request))), request, InSendProtocol)
    else Answer(o, NA, InSendNa)
  }

  function Answer(o: Out, p: Frame.Payload, next: NegState): (a: Out)
    requires o.stream.Valid()
    ensures a.stream.Valid() && a.stream.outbound == o.stream.outbound && a.stream.inFrame == o.stream.inFrame
    ensures a.took == o.took && a.message == o.message
  {
    o.(stream := Prepare(o.stream, p).(neg := next))
  }

  /** host_stream_negotiation_step: dispatch on direction; any error ends the negotiation. */
  function Step(registry: seq<Id>, s: Stream, io: Io): (o: Out)
    requires s.Valid() && Obeys(s, io.read)
    ensures o.stream.Valid() && o.stream.outbound == s.outbound
    ensures s.inFrame + o.took == Consumed(o.message) + o.stream.inFrame
  {
    Finish(if s.outbound then OutboundStep(s, io) else InboundStep(registry, s, io))
  }

  function Finish(o: Out): Out {
    if o.status.Failure?
    then o.(stream := o.stream.(neg := Failed), progress := o.progress || !Settled(o.status.error)) else o
  }

  /**
    Failures that the step has dealt with itself; any other error is reported as progress by
    host_stream_negotiation_step.
  */
  predicate Settled(e: Error) {
    e == ErrUnsupported || e == ErrProtocol
  }

  predicate Negotiating(s: Stream) {
    s.neg != Done && s.neg != Failed
  }

  // -------------------------------------------------------------- reported progress

  predicate Replying(neg: NegState) {
    neg == InSendProtocol || neg == InSendNa || neg == InSendLs
  }

  /** A responder that is to send has something to send. */
  predicate Primed(s: Stream) {
    Replying(s.neg) ==> s.outPos < |s.outFrame|
  }

  lemma ReadReports(s: Stream, r: ReadAnswer)
    requires s.Valid() && Obeys(s, r)
    ensures
      var o := ReadMessage(s, r);
      && (o.message.Some? ==> o.progress) && !o.status.Completed?
      && (o.status.Failure? ==> !Settled(o.status.error))
  {
  }

  lemma SendReports(s: Stream, w: WriteAnswer)
    requires s.Valid()
    ensures
      var o := SendPrepared(s, w);
      && !o.status.Completed? && (o.status.Failure? ==> !Settled(o.status.error))
      && (s.outPos < |s.outFrame| && o.status == Continue && o.stream.outFrame == [] ==> o.progress)
      && (s.outPos < |s.outFrame| && o.stream.outFrame != [] ==> o.stream.outPos < |o.stream.outFrame|)
      && o.stream.neg == s.neg && (s.outPos < |s.outFrame| && o.stream.outFrame == [] ==> o.status == Continue)
  {
  }

  predicate EndsReported(o: Out) {
    o.status == Completed || o.status.Failure? ==> Finish(o).progress
  }

  lemma FlushReports(s: Stream, w: WriteAnswer, next: NegState)
    requires s.Valid()
    ensures EndsReported(FlushTo(s, w, next))
  {
    hide SendPrepared;
    SendReports(s, w);
  }

  lemma SendsReport(s: Stream, p: Frame.Payload, w: WriteAnswer, next: NegState)
    requires s.Valid()
    ensures EndsReported(SendFrame(s, p, w, next))
  {
    hide FlushTo, Frame.Encode, EndsReported;
    FlushReports(if s.outFrame == [] then Prepare(s, p) else s, w, next);
  }

  lemma OutReported(s: Stream, io: Io)
    requires s.Valid() && Obeys(s, io.read)
    ensures EndsReported(OutboundStep(s, io))
  {
    hide ReadMessage, SendFrame, Consumed, Stream.Valid;
    ReadReports(s, io.read);
    SendsReport(s, MS, io.write, OutSendProtocol);
    if s.protocol.Some? { SendsReport(s, s.protocol.value, io.write, if s.ready then OutReadProtocol else OutReadMs); }
  }

  lemma InReported(registry: seq<Id>, s: Stream, io: Io)
    requires s.Valid() && Obeys(s, io.read) && Primed(s)
    ensures EndsReported(InboundStep(registry, s, io))
  {
    hide ReadMessage, FlushTo, SendPrepared, Prepare, Frame.Encodes;
    ReadReports(s, io.read);
    SendReports(s, io.write);
    FlushReports(s, io.write, InReadProtocol);
  }

  /**
    A step that ends the negotiation, in agreement or in failure, reports progress, so that
    host_stream_negotiation_one stops after it.
  */
  lemma EndReported(registry: seq<Id>, s: Stream, io: Io)
    requires s.Valid() && Obeys(s, io.read) && (!s.outbound ==> Primed(s))
    ensures
      var o := Step(registry, s, io);
      o.status == Completed || o.status.Failure? ==> o.progress
  {
    hide OutboundStep, InboundStep;
    if s.outbound { OutReported(s, io); } else { InReported(registry, s, io); }
  }

  predicate Open(o: Out) {
    o.status != Completed && !o.status.Failure? ==> Negotiating(o.stream)
  }

  lemma FlushOpen(s: Stream, w: WriteAnswer, next: NegState)
    requires s.Valid() && Negotiating(s) && next != Done && next != Failed
    ensures Open(FlushTo(s, w, next)) && SendPrepared(s, w).stream.neg == s.neg
  {
    hide SendPrepared;
    SendReports(s, w);
  }

  lemma SendOpen(s: Stream, p: Frame.Payload, w: WriteAnswer, next: NegState)
    requires s.Valid() && Negotiating(s) && next != Done && next != Failed
    ensures Open(SendFrame(s, p, w, next))
  {
    hide FlushTo, Frame.Encode;
    FlushOpen(if s.outFrame == [] then Prepare(s, p) else s, w, next);
  }

  lemma HeardOpen(s: Stream, o: Out, onOpen: bool)
    requires o.stream.Valid() && o.message.Some? && Negotiating(o.stream)
    ensures Open(HearMs(o)) && Open(HearProtocol(s, o, onOpen))
  {
  }

  lemma OutOpen(s: Stream, io: Io)
    requires s.Valid() && Obeys(s, io.read) && Negotiating(s)
    ensures Open(OutboundStep(s, io))
  {
    hide ReadMessage, SendFrame, HearMs, HearProtocol, Consumed, Stream.Valid;
    SendOpen(s, MS, io.write, OutSendProtocol);
    if s.protocol.Some? { SendOpen(s, s.protocol.value, io.write, if s.ready then OutReadProtocol else OutReadMs); }
    var o := ReadMessage(s, io.read);
    if o.message.Some? { HeardOpen(s, o, io.onOpen); }
  }

  lemma InOpen(registry: seq<Id>, s: Stream, io: Io)
    requires s.Valid() && Obeys(s, io.read) && Negotiating(s)
    ensures Open(InboundStep(registry, s, io))
  {
    hide ReadMessage, FlushTo, SendPrepared, Prepare, Frame.Encodes, Consumed;
    FlushOpen(s, io.write, InReadProtocol);
  }

  /** A step that does not end the negotiation leaves it going on. */
  lemma GoesOn(registry: seq<Id>, s: Stream, io: Io)
    requires s.Valid() && Obeys(s, io.read) && Negotiating(s)
    ensures Open(Step(registry, s, io))
  {
    hide OutboundStep, InboundStep, Consumed;
    if s.outbound { OutOpen(s, io); } else { InOpen(registry, s, io); }
  }

  /** And a responder stays primed. */
  lemma StaysPrimed(registry: seq<Id>, s: Stream, io: Io)
    requires s.Valid() && Obeys(s, io.read) && !s.outbound && Primed(s)
    ensures Primed(Step(registry, s, io).stream)
  {
    hide ReadMessage, SendPrepared, Frame.Encode, Frame.Encodes;
    ReadReports(s, io.read);
    SendReports(s, io.write);
  }

  // ----------------------------------------------------------- the record of a negotiation

  /** The record after a sequence of steps, or None when one was taken after the end or the transport misbehaved. */
  function After(registry: seq<Id>, s: Stream, ios: seq<Io>): (t: Option<Stream>)
    requires s.Valid()
    ensures t.Some? ==> t.value.Valid() && t.value.outbound == s.outbound
    decreases |ios|
  {
    if ios == [] then Some(s)
    else
      var k := |ios| - 1;
      match After(registry, s, ios[..k])
      case Some(t) => if Negotiating(t) && Obeys(t, ios[k].read) then Some(Step(registry, t, ios[k]).stream) else None
      case None => None
  }

  /** The record that host_stream_alloc leaves, for either direction. */
  ghost predicate Begins(s: Stream) {
    s == NewInbound() || exists protocol, fallback :: s == NewOutbound(protocol, fallback)
  }

  /** Every record that a stream can have: steps of the negotiation, from where it begins. */
  ghost predicate Reached(registry: seq<Id>, t: Stream) {
    exists s, ios :: Begins(s) && s.Valid() && After(registry, s, ios) == Some(t)
  }

  lemma BeginsReached(registry: seq<Id>, s: Stream)
    requires Begins(s)
    ensures Reached(registry, s) && Negotiating(s)
  {
    assert After(registry, s, []) == Some(s);
  }

  lemma StepReached(registry: seq<Id>, t: Stream, io: Io)
    requires Reached(registry, t) && t.Valid() && Negotiating(t) && Obeys(t, io.read)
    ensures Reached(registry, Step(registry, t, io).stream)
  {
    hide Step;
    var s, ios :| Begins(s) && s.Valid() && After(registry, s, ios) == Some(t);
    assert (ios + [io])[..|ios|] == ios;
    assert After(registry, s, ios + [io]) == Some(Step(registry, t, io).stream);
  }

  lemma {:induction false} AfterPrimed(registry: seq<Id>, s: Stream, ios: seq<Io>)
    requires s.Valid() && Primed(s) && !s.outbound && After(registry, s, ios).Some?
    ensures Primed(After(registry, s, ios).value)
    decreases |ios|
  {
    hide Step, Primed;
    if ios != [] {
      var k := |ios| - 1;
      AfterPrimed(registry, s, ios[..k]);
      StaysPrimed(registry, After(registry, s, ios[..k]).value, ios[k]);
    }
  }

  /** A responder is primed after every sequence of steps from a fresh record. */
  lemma ReachedPrimed(registry: seq<Id>, t: Stream)
    requires Reached(registry, t)
    ensures t.Valid() && (!t.outbound ==> Primed(t))
  {
    hide After;
    var s, ios :| Begins(s) && s.Valid() && After(registry, s, ios) == Some(t);
    if !t.outbound { AfterPrimed(registry, s, ios); }
  }
}
