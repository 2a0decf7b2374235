/**
  Two hosts negotiating over a pair of FIFO byte pipes. Every transport chunking, every interleaving
  of the two ends, application data pipelined behind the negotiation, and aborts are all allowed.
*/
module Session {
  import opened Bytes
  import opened Negotiation
  import Frame

  datatype Config = Config(protocol: Id, fallback: Option<Id>, registry: seq<Id>)

  /** What the initiator may send, in order. */
  function Requests(c: Config): (rs: seq<Frame.Payload>)
    ensures 2 <= |rs| <= 3
  {
    [MS, c.protocol] + (if c.fallback.Some? then [c.fallback.value] else [])
  }

  predicate Supports(c: Config, id: Frame.Payload) {
    id != LS && id in c.registry
  }

  function Reply(c: Config, id: Frame.Payload): Frame.Payload {
    if id == LS then
      if |LsPayload(c.registry)| <= Frame.MAX_PAYLOAD then LsPayload(c.registry) else []
    else if id in c.registry then id
    else NA
  }

  /** What the responder would answer to each request. */
  function Replies(c: Config): (rs: seq<Frame.Payload>)
    ensures |rs| == |Requests(c)|
  {
    [MS, Reply(c, c.protocol)] + (if c.fallback.Some? then [Reply(c, c.fallback.value)] else [])
  }

  /** The first of protocol and fallback that the responder has registered. */
  function Choice(c: Config): Option<Id> {
    if Supports(c, c.protocol) then Some(c.protocol)
    else if c.fallback.Some? && Supports(c, c.fallback.value) then c.fallback
    else None
  }

  /**
    Streams and pipes, plus history: how many messages each end prepared and consumed, the
    application bytes each end wrote, and those each end was handed by stream_read.
  */
  datatype System = System(
    i: Stream, r: Stream,
    ir: seq<byte>, ri: seq<byte>,
    sentI: nat, gotR: nat, sentR: nat, gotI: nat,
    appI: seq<byte>, appR: seq<byte>,
    handedI: seq<byte>, handedR: seq<byte>)

  function Init(c: Config): System {
    System(NewOutbound(c.protocol, c.fallback), NewInbound(), [], [], 0, 0, 0, 0, [], [], [], [])
  }

  datatype Label =
    | StepInitiator(io: Io) | StepResponder(io: Io)
    | WriteInitiator(bytes: seq<byte>) | WriteResponder(bytes: seq<byte>)
    | ReadInitiator(count: nat) | ReadResponder(count: nat)
    | AbortInitiator | AbortResponder

  /** A read yields some prefix of what the pipe holds. */
  predicate Pipes(s: Stream, pipe: seq<byte>, r: ReadAnswer) {
    Obeys(s, r) && (r.Data? ==> r.bytes <= pipe && !r.fin)
  }

  predicate Enabled(y: System, l: Label) {
    match l
    case StepInitiator(io) => y.i.Valid() && Negotiating(y.i) && Pipes(y.i, y.ri, io.read)
    case StepResponder(io) => y.r.Valid() && Negotiating(y.r) && Pipes(y.r, y.ir, io.read)
    case WriteInitiator(_) => y.i.neg == Done
    case WriteResponder(_) => y.r.neg == Done
    case ReadInitiator(_) => y.i.neg == Done
    case ReadResponder(_) => y.r.neg == Done
    case AbortInitiator => Negotiating(y.i)
    case AbortResponder => Negotiating(y.r)
  }

  /** libp2p_host_stream_read: leftover negotiation input first, then the transport. */
  datatype Handed = Handed(bytes: seq<byte>, inFrame: seq<byte>, pipe: seq<byte>)

  function StreamRead(s: Stream, pipe: seq<byte>, count: nat): (h: Handed)
    ensures h.bytes + h.inFrame + h.pipe == s.inFrame + pipe
  {
    if s.inFrame != [] then
      var n := if count < |s.inFrame| then count else |s.inFrame|;
      Handed(s.inFrame[..n], s.inFrame[n..], pipe)
    else
      var n := if count < |pipe| then count else |pipe|;
      Handed(pipe[..n], [], pipe[n..])
  }

  /** A frame enters out_frame in this step: sends prepare one when none is pending, reads when they answer. */
  predicate Prepares(s: Stream, o: Out) {
    s.outFrame == [] && (s.neg == OutSendMs || s.neg == OutSendProtocol || o.stream.outFrame != [])
  }

  function Count(b: bool): nat { if b then 1 else 0 }

  function AfterInitiator(y: System, o: Out): System {
    y.(i := o.stream, ir := y.ir + o.wrote, ri := Drop(y.ri, |o.took|),
       sentI := y.sentI + Count(Prepares(y.i, o)), gotI := y.gotI + Count(o.message.Some?))
  }

  function AfterResponder(y: System, o: Out): System {
    y.(r := o.stream, ri := y.ri + o.wrote, ir := Drop(y.ir, |o.took|),
       sentR := y.sentR + Count(Prepares(y.r, o)), gotR := y.gotR + Count(o.message.Some?))
  }

  function HandInitiator(y: System, h: Handed): System {
    y.(i := y.i.(inFrame := h.inFrame), ri := h.pipe, handedI := y.handedI + h.bytes)
  }

  function HandResponder(y: System, h: Handed): System {
    y.(r := y.r.(inFrame := h.inFrame), ir := h.pipe, handedR := y.handedR + h.bytes)
  }

  function Apply(c: Config, y: System, l: Label): System
    requires Enabled(y, l)
  {
    match l
    case StepInitiator(io) => AfterInitiator(y, Step([], y.i, io))
    case StepResponder(io) => AfterResponder(y, Step(c.registry, y.r, io))
    case WriteInitiator(bytes) => y.(ir := y.ir + bytes, appI := y.appI + bytes)
    case WriteResponder(bytes) => y.(ri := y.ri + bytes, appR := y.appR + bytes)
    case ReadInitiator(count) => HandInitiator(y, StreamRead(y.i, y.ri, count))
    case ReadResponder(count) => HandResponder(y, StreamRead(y.r, y.ir, count))
    case AbortInitiator => y.(i := y.i.(neg := Failed))
    case AbortResponder => y.(r := y.r.(neg := Failed))
  }

  function Drop(s: seq<byte>, n: nat): seq<byte> {
    if n == 0 then s else if n <= |s| then s[n..] else []
  }

  /** The state after a run, or None when some label was not enabled. */
  function Run(c: Config, labels: seq<Label>): Option<System>
    decreases |labels|
  {
    if labels == [] then Some(Init(c))
    else
      var k := |labels| - 1;
      match Run(c, labels[..k])
      case Some(y) => if Enabled(y, labels[k]) then Some(Apply(c, y, labels[k])) else None
      case None => None
  }

  // ------------------------------------------------------------- the invariant

  predicate Second(c: Config, i: Stream) {
    c.fallback.Some? && i.fallback.None?
  }

  /** The first proposal was answered "na", and "na" was not the proposal. */
  predicate Declined(c: Config) {
    Replies(c)[1] == NA && c.protocol != NA
  }

  predicate Pending(s: Stream) {
    s.outPos < |s.outFrame|
  }

  predicate InitiatorOk(c: Config, i: Stream, sent: nat, got: nat) {
    && i.outbound && i.Valid()
    && (i.fallback.Some? ==> i.fallback == c.fallback)
    && i.protocol == Some(if Second(c, i) then c.fallback.value else c.protocol)
    && match i.neg
       case OutSendMs =>
         && !Second(c, i) && !i.ready && got == 0
         && if i.outFrame == [] then sent == 0 else sent == 1 && Pending(i)
       case OutSendProtocol =>
         && (Second(c, i) ==> Declined(c))
         && i.ready == Second(c, i)
         && got == (if i.ready then 2 else 0)
         && (i.outFrame == [] || Pending(i))
         && sent == (if i.ready then 2 else 1) + Count(i.outFrame != [])
       case OutReadMs => !Second(c, i) && !i.ready && i.outFrame == [] && sent == 2 && got == 0
       case OutReadProtocol =>
         && (Second(c, i) ==> Declined(c))
         && i.ready && i.outFrame == []
         && sent == (if Second(c, i) then 3 else 2) && got == sent - 1
       case Done =>
         && i.outFrame == []
         && sent == got == (if Second(c, i) then 3 else 2)
         && Replies(c)[got - 1] == i.protocol.value
         && (Second(c, i) ==> Declined(c))
       case Failed => true
       case _ => false
  }

  function Bound(c: Config, got: nat): Option<Id>
    requires got <= |Requests(c)|
  {
    if got >= 2 && Supports(c, Requests(c)[got - 1]) then Some(Requests(c)[got - 1]) else None
  }

  predicate ResponderOk(c: Config, r: Stream, got: nat, sent: nat) {
    && !r.outbound && r.Valid()
    && got <= |Requests(c)|
    && r.protocol == Bound(c, got)
    && match r.neg
       case InReadMs => got == sent == 0 && r.outFrame == []
       case InSendProtocol => got == sent >= 1 && Pending(r) && (r.protocol.None? ==> got == 1)
       case InReadProtocol => got == sent >= 1 && r.outFrame == [] && r.protocol.None?
       case InSendNa => got == sent >= 2 && Pending(r) && r.protocol.None?
       case InSendLs => got == sent >= 2 && Pending(r) && r.protocol.None?
       case Done => got == sent >= 2 && r.outFrame == [] && r.protocol.Some?
       case Failed => sent <= got <= sent + 1
       case _ => false
  }

  /** Reader's buffer, pipe and writer's unsent bytes together hold the unread messages, then unread data. */
  predicate Wire(inFrame: seq<byte>, pipe: seq<byte>, unsent: seq<byte>, ms: seq<Frame.Payload>, tail: seq<byte>) {
    inFrame + pipe + unsent == Frame.Encodes(ms) + tail
  }

  /** Application bytes that were written and not yet handed out. */
  function Unread(app: seq<byte>, handed: seq<byte>): seq<byte> {
    if handed == [] then app else if |handed| <= |app| then app[|handed|..] else []
  }

  /** The messages from one count to another. */
  function Due(all: seq<Frame.Payload>, from: nat, to: nat): seq<Frame.Payload> {
    if to <= from || |all| < to then [] else if from == 0 then all[..to] else all[from..to]
  }

  /** What was handed out is the beginning of what was written. */
  predicate Delivered(handed: seq<byte>, app: seq<byte>) {
    handed <= app
  }

  predicate Counts(c: Config, y: System) {
    && y.gotI <= y.sentR <= y.gotR <= y.sentI <= |Requests(c)|
    && (y.sentI == 3 ==> y.gotI >= 2 && Declined(c))
    && Delivered(y.handedR, y.appI) && Delivered(y.handedI, y.appR)
    && (y.appI != [] ==> y.i.neg == Done)
    && (y.appR != [] ==> y.r.neg == Done)
  }

  predicate Inv(c: Config, y: System) {
    && Counts(c, y)
    && InitiatorOk(c, y.i, y.sentI, y.gotI)
    && ResponderOk(c, y.r, y.gotR, y.sentR)
    && Wire(y.r.inFrame, y.ir, y.i.Unsent(), Due(Requests(c), y.gotR, y.sentI), Unread(y.appI, y.handedR))
    && Wire(y.i.inFrame, y.ri, y.r.Unsent(), Due(Replies(c), y.gotI, y.sentR), Unread(y.appR, y.handedI))
  }

  /**
    What keeps the word "na" from being mistaken for an acceptance: a proposal that is itself "na" is
    either registered at the responder or never reached.
  */
  predicate Proposable(c: Config) {
    && (c.protocol == NA ==> NA in c.registry)
    && (c.fallback == Some(NA) ==> NA in c.registry || Supports(c, c.protocol) || c.protocol == LS)
  }
}
