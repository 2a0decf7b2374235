/** Every run of the two-ended negotiation keeps `Session.Inv`; agreement and progress follow. */
module SessionProofs {
  import opened Bytes
  import opened Negotiation
  import opened Session
  import Frame

  // ---------------------------------------------------------------- words

  /** An "ls" answer is empty or ends in a newline, so it is neither "ls" nor "na". */
  lemma {:induction false} LsPayloadEndsInNewline(registry: seq<Id>)
    ensures LsPayload(registry) == [] || LsPayload(registry)[|LsPayload(registry)| - 1] == Frame.NEWLINE
  {
    if registry != [] {
      LsPayloadEndsInNewline(registry[1..]);
      var tail := LsPayload(registry[1..]);
      assert LsPayload(registry) == Frame.Encode(registry[0]) + tail;
    }
  }

  lemma ReplyMeaning(c: Config, id: Id)
    ensures id != NA || NA in c.registry ==> (Reply(c, id) == id <==> Supports(c, id))
    ensures id != NA && Reply(c, id) == NA ==> !Supports(c, id) && id != LS
  {
    LsPayloadEndsInNewline(c.registry);
    assert LS[1] != Frame.NEWLINE && NA[1] != Frame.NEWLINE;
  }

  /**
    What the responder does with a proposal, and what its answer tells the initiator: it binds the id exactly when it
    supports it, and its answer is the id exactly then, unless the id is an unregistered "na".
  */
  lemma AnswerMeaning(c: Config, o: Out, id: Id)
    requires o.stream.Valid() && o.stream.protocol.None? && o.status == Continue
    ensures
      var a := Judge(c.registry, o, id);
      && (a.status == Continue || a.status == Failure(ErrNegotiation))
      && (a.status.Failure? <==> id == LS && |LsPayload(c.registry)| > Frame.MAX_PAYLOAD)
      && (a.status == Continue ==>
            && a.stream.Unsent() == Frame.Encode(Reply(c, id))
            && (a.stream.protocol == Some(id) <==> Supports(c, id))
            && (id != NA || NA in c.registry ==> (Reply(c, id) == id <==> Supports(c, id))))
  {
    hide Frame.Encode, Frame.Encodes;
    ReplyMeaning(c, id);
  }

  // ---------------------------------------------------------------- wires

  lemma NothingUnsent(s: Stream)
    requires s.Valid() && s.outFrame == []
    ensures s.Unsent() == []
  {
  }

  lemma NoData(app: seq<byte>, handed: seq<byte>)
    requires Delivered(handed, app) && app == []
    ensures Unread(app, handed) == []
  {
  }

  lemma NoneDue(all: seq<Frame.Payload>, k: nat)
    requires k <= |all|
    ensures Due(all, k, k) == []
  {
  }

  /** The first message due, and the rest. */
  lemma DueFirst(all: seq<Frame.Payload>, from: nat, to: nat)
    requires from <= to <= |all|
    ensures Due(all, from, to) == [] <==> from == to
    ensures from < to ==> Due(all, from, to)[0] == all[from] && Due(all, from, to)[1..] == Due(all, from + 1, to)
  {
  }

  /** One more message becomes due. */
  lemma DueMore(all: seq<Frame.Payload>, from: nat, to: nat)
    requires from <= to < |all|
    ensures Due(all, from, to + 1) == Due(all, from, to) + [all[to]]
  {
  }

  lemma LoadedUnsent(s: Stream)
    requires s.Valid() && s.protocol.Some? && s.outFrame == []
    ensures Loaded(s).Unsent() == Frame.Encode(Outgoing(s))
  {
    hide Frame.Encode;
  }

  /** What one read does to a reader whose wire holds exactly `ms` and then `tail`. */
  lemma ReadSees(s: Stream, r: ReadAnswer, pipe: seq<byte>, unsent: seq<byte>,
                 ms: seq<Frame.Payload>, tail: seq<byte>)
    requires s.Valid() && Pipes(s, pipe, r) && Wire(s.inFrame, pipe, unsent, ms, tail)
    requires ms != [] || tail == []
    ensures
      var o := ReadMessage(s, r);
      && |o.took| <= |pipe|
      && (o.message.Some? ==> ms != [] && o.message.value == ms[0] && o.status == Continue)
      && (o.status.Failure? ==> r == ReadError && o.status.error == ErrTransport)
      && Wire(o.stream.inFrame, Drop(pipe, |o.took|), unsent,
              if o.message.Some? then ms[1..] else ms, tail)
  {
    hide Frame.Encode, Frame.Decode, Frame.Encodes;
    var o := ReadMessage(s, r);
    assert o.took == [] || (r.Data? && o.took == r.bytes);
    assert |o.took| <= |pipe| && o.took == pipe[..|o.took|];
    ReadVerdicts(s.inFrame, o.took, pipe, unsent, ms, tail);
    WireAfterRead(s, o, pipe, unsent, ms, tail);
  }

  /** What a reader makes of its buffer, before and after taking some bytes off the pipe. */
  lemma ReadVerdicts(inFrame: seq<byte>, took: seq<byte>, pipe: seq<byte>, unsent: seq<byte>,
                     ms: seq<Frame.Payload>, tail: seq<byte>)
    requires |took| <= |pipe| && took == pipe[..|took|] && Wire(inFrame, pipe, unsent, ms, tail)
    requires ms != [] || tail == []
    ensures forall have :: have == inFrame || have == inFrame + took ==>
      || Frame.Decode(have) == Frame.Truncated
      || (ms != [] && Frame.Decode(have) == Frame.Ok(ms[0], |Frame.Encode(ms[0])|))
    ensures |inFrame| >= Frame.MAX_ENCODED ==> Frame.Decode(inFrame) != Frame.Truncated
  {
    hide Frame.Encode, Frame.Decode;
    if |inFrame| >= Frame.MAX_ENCODED {
      Frame.FullBufferDecides(inFrame);
    }
    if ms == [] {
      assert inFrame + pipe + unsent == [];
      assert inFrame == [] && took == [];
      EmptyIsTruncated();
    } else {
      assert inFrame + pipe + unsent == inFrame + (pipe + unsent);
      Frame.DecodeStream(inFrame, pipe + unsent, ms, tail);
      assert pipe == took + pipe[|took|..];
      Regroup(inFrame, took, pipe[|took|..], unsent, inFrame + took, []);
      assert inFrame + pipe + unsent == (inFrame + took) + (pipe[|took|..] + unsent);
      Frame.DecodeStream(inFrame + took, pipe[|took|..] + unsent, ms, tail);
    }
  }

  lemma EmptyIsTruncated()
    ensures Frame.Decode([]) == Frame.Truncated
  {
  }

  lemma FrontMessage(message: Option<Frame.Payload>, ms: seq<Frame.Payload>, tail: seq<byte>)
    requires message.Some? ==> ms != [] && message.value == ms[0]
    ensures Consumed(message) + (Frame.Encodes(if message.Some? then ms[1..] else ms) + tail)
      == Frame.Encodes(ms) + tail
  {
    hide Frame.Encode;
    if message.Some? { assert Frame.Encodes(ms) == Consumed(message) + Frame.Encodes(ms[1..]); }
  }

  lemma WireAfterRead(s: Stream, o: Out, pipe: seq<byte>, unsent: seq<byte>,
                      ms: seq<Frame.Payload>, tail: seq<byte>)
    requires s.inFrame + o.took == Consumed(o.message) + o.stream.inFrame
    requires |o.took| <= |pipe| && o.took == pipe[..|o.took|]
    requires Wire(s.inFrame, pipe, unsent, ms, tail)
    requires o.message.Some? ==> ms != [] && o.message.value == ms[0]
    ensures Wire(o.stream.inFrame, Drop(pipe, |o.took|), unsent, if o.message.Some? then ms[1..] else ms, tail)
  {
    hide Frame.Encode, Frame.Encodes, Consumed, Drop;
    var front := Consumed(o.message);
    var back := Frame.Encodes(if o.message.Some? then ms[1..] else ms) + tail;
    FrontMessage(o.message, ms, tail);
    DropFront(pipe, o.took);
    Regroup(s.inFrame, o.took, Drop(pipe, |o.took|), unsent, front, o.stream.inFrame);
    SameFront(front, o.stream.inFrame + Drop(pipe, |o.took|) + unsent, back);
  }

  lemma DropNone(s: seq<byte>)
    ensures Drop(s, 0) == s
  {
  }

  lemma DropFront(s: seq<byte>, front: seq<byte>)
    requires |front| <= |s| && front == s[..|front|]
    ensures s == front + Drop(s, |front|)
  {
  }

  lemma Regroup(a: seq<byte>, b: seq<byte>, c: seq<byte>, d: seq<byte>, front: seq<byte>, e: seq<byte>)
    requires a + b == front + e
    ensures a + (b + c) + d == front + (e + c + d)
  {
    assert a + (b + c) + d == (a + b) + (c + d);
    assert front + (e + c + d) == (front + e) + (c + d);
  }

  lemma SameFront(front: seq<byte>, x: seq<byte>, y: seq<byte>)
    requires front + x == front + y
    ensures x == y
  {
    assert x == (front + x)[|front|..];
    assert y == (front + y)[|front|..];
  }

  /** Moving bytes from out_frame to the pipe does not change the wire. */
  lemma WireAfterWrite(inFrame: seq<byte>, pipe: seq<byte>, before: seq<byte>, wrote: seq<byte>, after: seq<byte>,
                       ms: seq<Frame.Payload>, tail: seq<byte>)
    requires wrote + after == before && Wire(inFrame, pipe, before, ms, tail)
    ensures Wire(inFrame, pipe + wrote, after, ms, tail)
  {
    assert inFrame + (pipe + wrote) + after == inFrame + pipe + (wrote + after);
  }

  /** Preparing the next message, when nothing was pending, appends it to the wire. */
  lemma WireAfterPrepare(inFrame: seq<byte>, pipe: seq<byte>, all: seq<Frame.Payload>, from: nat, to: nat)
    requires from <= to < |all| && Wire(inFrame, pipe, [], Due(all, from, to), [])
    ensures Wire(inFrame, pipe, Frame.Encode(all[to]), Due(all, from, to + 1), [])
  {
    hide Due;
    DueMore(all, from, to);
    Frame.EncodesAppend(Due(all, from, to), all[to]);
    assert Frame.Encodes(Due(all, from, to)) + [] == Frame.Encodes(Due(all, from, to));
    assert inFrame + pipe + [] == inFrame + pipe;
  }

  // ------------------------------------------------------------ one step

  /** A flush of a pending frame either leaves part of it pending or finishes it and moves on. */
  lemma FlushShape(s: Stream, w: WriteAnswer, next: NegState)
    requires s.Valid() && Pending(s)
    ensures
      var o := FlushTo(s, w, next);
      && o.wrote + o.stream.Unsent() == s.Unsent()
      && (if o.stream.outFrame == [] && !o.status.Failure?
          then o.stream == s.(outFrame := [], outPos := 0, neg := next)
          else o.stream == s.(outPos := o.stream.outPos) && Pending(o.stream))
  {
  }

  function NextOut(s: Stream): NegState {
    if s.neg == OutSendMs then OutSendProtocol else if s.ready then OutReadProtocol else OutReadMs
  }

  function Outgoing(s: Stream): Frame.Payload
    requires s.protocol.Some?
  {
    if s.neg == OutSendMs then MS else s.protocol.value
  }

  /** The frame being sent: the pending one, or the next message freshly prepared. */
  function Loaded(s: Stream): (t: Stream)
    requires s.Valid() && s.protocol.Some? && (s.outFrame == [] || Pending(s))
    ensures t.Valid() && Pending(t) && t == s.(outFrame := t.outFrame, outPos := t.outPos)
  {
    Frame.EncodedSize(Outgoing(s));
    if s.outFrame == [] then Prepare(s, Outgoing(s)) else s
  }

  lemma NextRequest(c: Config, s: Stream, sent: nat, got: nat)
    requires InitiatorOk(c, s, sent, got) && (s.neg == OutSendMs || s.neg == OutSendProtocol)
    ensures sent < |Requests(c)| || s.outFrame != []
    ensures s.outFrame == [] ==> Requests(c)[sent] == Outgoing(s)
    ensures sent + Count(s.outFrame == []) == 3 ==> got >= 2 && Declined(c)
  {
    hide Replies, Reply, Declined;
  }

  lemma InitiatorSendsControl(c: Config, s: Stream, sent: nat, got: nat, w: WriteAnswer)
    requires InitiatorOk(c, s, sent, got) && (s.neg == OutSendMs || s.neg == OutSendProtocol)
    ensures InitiatorOk(c, Finish(FlushTo(Loaded(s), w, NextOut(s))).stream, sent + Count(s.outFrame == []), got)
  {
    hide FlushTo, SendPrepared, Frame.Encode, Replies, Reply, Requests, Declined, Loaded, Stream.Unsent;
    FlushShape(Loaded(s), w, NextOut(s));
  }

  /** Loading a fresh frame appends its message to the wire. */
  lemma FreshWire(rs: seq<Frame.Payload>, s: Stream, inFrame: seq<byte>, pipe: seq<byte>, from: nat, to: nat)
    requires s.Valid() && s.protocol.Some? && s.outFrame == []
    requires from <= to < |rs| && rs[to] == Outgoing(s) && Wire(inFrame, pipe, s.Unsent(), Due(rs, from, to), [])
    ensures Wire(inFrame, pipe, Loaded(s).Unsent(), Due(rs, from, to + 1), [])
  {
    hide Wire, Unread, Due, Drop, Delivered, Stream.Unsent, Loaded, Outgoing, Frame.Encode;
    NothingUnsent(s);
    LoadedUnsent(s);
    WireAfterPrepare(inFrame, pipe, rs, from, to);
  }

  /** Loading while a frame is pending changes nothing. */
  lemma PendingStays(s: Stream)
    requires s.Valid() && s.protocol.Some? && s.outFrame != [] && Pending(s)
    ensures Loaded(s) == s
  {
  }

  lemma LoadedWire(rs: seq<Frame.Payload>, s: Stream, inFrame: seq<byte>, pipe: seq<byte>, from: nat, to: nat)
    requires s.Valid() && s.protocol.Some? && (s.outFrame == [] || Pending(s))
    requires from <= to <= |rs| && Wire(inFrame, pipe, s.Unsent(), Due(rs, from, to), [])
    requires s.outFrame == [] ==> to < |rs| && rs[to] == Outgoing(s)
    ensures Wire(inFrame, pipe, Loaded(s).Unsent(), Due(rs, from, to + Count(s.outFrame == [])), [])
  {
    hide Wire, Unread, Due, Drop, Delivered, Stream.Unsent, Loaded, Outgoing, Frame.Encode;
    if s.outFrame == [] {
      FreshWire(rs, s, inFrame, pipe, from, to);
    } else {
      PendingStays(s);
    }
  }

  lemma SendsWire(rs: seq<Frame.Payload>, s: Stream, w: WriteAnswer, inFrame: seq<byte>, pipe: seq<byte>, from: nat,
                  to: nat)
    requires s.Valid() && s.protocol.Some? && (s.outFrame == [] || Pending(s))
    requires from <= to <= |rs| && Wire(inFrame, pipe, s.Unsent(), Due(rs, from, to), [])
    requires s.outFrame == [] ==> to < |rs| && rs[to] == Outgoing(s)
    ensures
      var o := Finish(FlushTo(Loaded(s), w, NextOut(s)));
      Wire(inFrame, pipe + o.wrote, o.stream.Unsent(), Due(rs, from, to + Count(s.outFrame == [])), [])
  {
    LoadedWire(rs, s, inFrame, pipe, from, to);
    hide Wire, Unread, Due, Drop, Delivered, Stream.Unsent, Loaded, FlushTo;
    FlushShape(Loaded(s), w, NextOut(s));
    var o := FlushTo(Loaded(s), w, NextOut(s));
    WireAfterWrite(inFrame, pipe, Loaded(s).Unsent(), o.wrote, o.stream.Unsent(),
      Due(rs, from, to + Count(s.outFrame == [])), []);
  }

  lemma OutboundSendStep(s: Stream, io: Io)
    requires s.Valid() && Obeys(s, io.read) && s.outbound && s.protocol.Some? && (s.outFrame == [] || Pending(s))
    requires s.neg == OutSendMs || s.neg == OutSendProtocol
    ensures Step([], s, io) == Finish(FlushTo(Loaded(s), io.write, NextOut(s)))
  {
  }

  /** What a step of the initiator must establish for the invariant to survive it. */
  predicate InitiatorMoves(c: Config, y: System, o: Out)
    requires Inv(c, y)
  {
    var sent := y.sentI + Count(Prepares(y.i, o));
    var got := y.gotI + Count(o.message.Some?);
    && |o.took| <= |y.ri| && got <= y.sentR && y.gotR <= sent <= |Requests(c)|
    && (sent == 3 ==> got >= 2 && Declined(c))
    && InitiatorOk(c, o.stream, sent, got)
    && Wire(y.r.inFrame, y.ir + o.wrote, o.stream.Unsent(), Due(Requests(c), y.gotR, sent), [])
    && Wire(o.stream.inFrame, Drop(y.ri, |o.took|), y.r.Unsent(), Due(Replies(c), got, y.sentR),
          Unread(y.appR, y.handedI))
  }

  lemma InitiatorMoveKeeps(c: Config, y: System, o: Out)
    requires Inv(c, y) && Negotiating(y.i) && InitiatorMoves(c, y, o)
    ensures Inv(c, AfterInitiator(y, o))
  {
    hide InitiatorOk, ResponderOk, Wire, Unread, Due, Drop, Delivered, Stream.Unsent, Requests, Replies;
    NoData(y.appI, y.handedR);
  }

  lemma SendsPrepare(s: Stream, io: Io)
    requires s.Valid() && s.protocol.Some? && (s.outFrame == [] || Pending(s))
    requires s.neg == OutSendMs || s.neg == OutSendProtocol
    ensures
      var o := Finish(FlushTo(Loaded(s), io.write, NextOut(s)));
      Prepares(s, o) == (s.outFrame == []) && o.took == [] && o.message.None? && o.stream.inFrame == s.inFrame
  {
    hide Loaded;
  }

  lemma InitiatorSendMoves(c: Config, y: System, io: Io)
    requires Inv(c, y) && Enabled(y, StepInitiator(io))
    requires y.i.neg == OutSendMs || y.i.neg == OutSendProtocol
    ensures InitiatorMoves(c, y, Step([], y.i, io))
  {
    hide Wire, Unread, Due, Drop, Delivered, Stream.Unsent, FlushTo, Step, Replies, Requests, ResponderOk, Loaded;
    hide Outgoing;
    NextRequest(c, y.i, y.sentI, y.gotI);
    InitiatorSendsControl(c, y.i, y.sentI, y.gotI, io.write);
    SendsPrepare(y.i, io);
    SendsWire(Requests(c), y.i, io.write, y.r.inFrame, y.ir, y.gotR, y.sentI) by { NoData(y.appI, y.handedR); }
    OutboundSendStep(y.i, io);
    DropNone(y.ri);
  }

  predicate Hearing(neg: NegState) {
    neg == OutReadMs || neg == OutReadProtocol
  }

  /** While the initiator waits for an answer, unread application data is behind an unread answer. */
  lemma AnswerFirst(c: Config, y: System)
    requires Inv(c, y) && Proposable(c) && Hearing(y.i.neg)
    ensures y.gotI < y.sentR || y.appR == []
  {
    hide Wire, Unread, Due, Drop, Delivered, Stream.Unsent, Frame.Encode, Reply;
    if y.appR != [] && y.gotI == y.sentR {
      assert Second(c, y.i) && y.gotR == 2;
      ReplyMeaning(c, c.protocol);
      assert false;
    }
  }

  /** The initiator's reaction to the answer it was waiting for. */
  function Heard(s: Stream, o: Out, onOpen: bool): Out
    requires o.stream.Valid()
  {
    if o.message.None? then o
    else if s.neg == OutReadMs then HearMs(o)
    else HearProtocol(s, o, onOpen)
  }

  lemma OutboundReadStep(s: Stream, io: Io)
    requires s.Valid() && Obeys(s, io.read) && s.outbound && Hearing(s.neg)
    ensures Step([], s, io) == Finish(Heard(s, ReadMessage(s, io.read), io.onOpen))
  {
    hide ReadMessage, HearMs, HearProtocol;
  }

  lemma InitiatorHearsControl(c: Config, s: Stream, sent: nat, got: nat, o: Out, onOpen: bool)
    requires InitiatorOk(c, s, sent, got) && Hearing(s.neg)
    requires o.stream.Valid() && o.stream == s.(inFrame := o.stream.inFrame)
    requires got < |Replies(c)| && (o.message.Some? ==> o.message.value == Replies(c)[got] && o.status == Continue)
    ensures
      var a := Finish(Heard(s, o, onOpen));
      && InitiatorOk(c, a.stream, sent, got + Count(o.message.Some?))
      && a.stream.outFrame == s.outFrame && a.stream.Unsent() == s.Unsent()
      && a.message == o.message && a.took == o.took && a.wrote == o.wrote && a.stream.inFrame == o.stream.inFrame
  {
    hide Reply;
  }

  /** The read half: at most the next answer is consumed, and the wire holds the answers after it. */
  lemma InitiatorHears(c: Config, y: System, r: ReadAnswer)
    requires Inv(c, y) && Proposable(c) && Pipes(y.i, y.ri, r) && Hearing(y.i.neg)
    ensures
      var o := ReadMessage(y.i, r);
      var got := y.gotI + Count(o.message.Some?);
      && |o.took| <= |y.ri| && got <= y.sentR
      && (o.message.Some? ==> o.message.value == Replies(c)[y.gotI])
      && (o.status.Failure? ==> r == ReadError && o.status.error == ErrTransport)
      && Wire(o.stream.inFrame, Drop(y.ri, |o.took|), y.r.Unsent(), Due(Replies(c), got, y.sentR),
            Unread(y.appR, y.handedI))
  {
    hide Frame.Encode, Frame.Encodes, Wire, Unread, Due, Drop, Delivered, Stream.Unsent, ReadMessage, Reply;
    AnswerFirst(c, y);
    if y.appR == [] { NoData(y.appR, y.handedI); }
    var ms := Due(Replies(c), y.gotI, y.sentR);
    DueFirst(Replies(c), y.gotI, y.sentR);
    ReadSees(y.i, r, y.ri, y.r.Unsent(), ms, Unread(y.appR, y.handedI));
  }

  lemma InitiatorHearMoves(c: Config, y: System, io: Io)
    requires Inv(c, y) && Proposable(c) && Enabled(y, StepInitiator(io)) && Hearing(y.i.neg)
    ensures InitiatorMoves(c, y, Step([], y.i, io))
  {
    hide Inv, InitiatorOk, InitiatorMoves, Step, ReadMessage, Heard, Finish, Wire, Unread, Due, Drop, Stream.Unsent;
    hide Proposable;
    HearingIdle(c, y);
    var o := ReadMessage(y.i, io.read);
    InitiatorHears(c, y, io.read);
    InitiatorHearsControl(c, y.i, y.sentI, y.gotI, o, io.onOpen);
    OutboundReadStep(y.i, io);
    HeardMoves(c, y, Finish(Heard(y.i, o, io.onOpen)));
  }

  /** What was heard leaves the outgoing half of the wire alone. */
  lemma HeardMoves(c: Config, y: System, a: Out)
    requires Inv(c, y) && Hearing(y.i.neg) && y.i.outFrame == [] && Unread(y.appI, y.handedR) == []
    requires a.stream.Valid() && a.stream.outFrame == [] && a.stream.Unsent() == y.i.Unsent() && a.wrote == []
    requires |a.took| <= |y.ri| && y.gotI + Count(a.message.Some?) <= y.sentR
    requires InitiatorOk(c, a.stream, y.sentI, y.gotI + Count(a.message.Some?))
    requires Wire(a.stream.inFrame, Drop(y.ri, |a.took|), y.r.Unsent(),
                  Due(Replies(c), y.gotI + Count(a.message.Some?), y.sentR), Unread(y.appR, y.handedI))
    ensures InitiatorMoves(c, y, a)
  {
    hide Wire, Unread, Due, Drop, Delivered, Stream.Unsent, InitiatorOk, ResponderOk, Replies, Requests, Declined;
    assert y.ir + [] == y.ir;
  }

  /** An initiator that waits for an answer has nothing to send, and an answer is due. */
  lemma HearingIdle(c: Config, y: System)
    requires Inv(c, y) && Hearing(y.i.neg)
    ensures InitiatorOk(c, y.i, y.sentI, y.gotI) && y.i.outbound && y.gotI < |Replies(c)|
    ensures y.i.outFrame == [] && y.i.Unsent() == [] && Unread(y.appI, y.handedR) == []
  {
    hide Wire, Unread, Due, Drop, Delivered, Stream.Unsent, Reply, ResponderOk;
    NothingUnsent(y.i);
    NoData(y.appI, y.handedR);
  }

  /** Every step of the initiator keeps the invariant. */
  lemma InitiatorStepKeeps(c: Config, y: System, io: Io)
    requires Inv(c, y) && Proposable(c) && Enabled(y, StepInitiator(io))
    ensures Inv(c, Apply(c, y, StepInitiator(io)))
  {
    if Hearing(y.i.neg) {
      InitiatorHearMoves(c, y, io);
    } else {
      InitiatorSendMoves(c, y, io);
    }
    InitiatorMoveKeeps(c, y, Step([], y.i, io));
  }

  // ---------------------------------------------------------- the responder

  predicate ResponderMoves(c: Config, y: System, o: Out)
    requires Inv(c, y)
  {
    var sent := y.sentR + Count(Prepares(y.r, o));
    var got := y.gotR + Count(o.message.Some?);
    && |o.took| <= |y.ir| && y.gotI <= sent <= got <= y.sentI
    && ResponderOk(c, o.stream, got, sent)
    && Wire(y.i.inFrame, y.ri + o.wrote, o.stream.Unsent(), Due(Replies(c), y.gotI, sent), [])
    && Wire(o.stream.inFrame, Drop(y.ir, |o.took|), y.i.Unsent(), Due(Requests(c), got, y.sentI),
          Unread(y.appI, y.handedR))
  }

  lemma ResponderMoveKeeps(c: Config, y: System, o: Out)
    requires Inv(c, y) && Negotiating(y.r) && ResponderMoves(c, y, o)
    ensures Inv(c, AfterResponder(y, o))
  {
    hide InitiatorOk, ResponderOk, Wire, Unread, Due, Drop, Delivered, Stream.Unsent, Requests, Replies;
    NoData(y.appR, y.handedI);
  }

  /** A finished initiator was answered by a responder that bound the very protocol it proposed last. */
  lemma DoneIsBound(c: Config, y: System)
    requires Inv(c, y) && Proposable(c) && y.i.neg == Done
    ensures y.i.protocol.Some? && Supports(c, y.i.protocol.value) && y.r.protocol == y.i.protocol == Choice(c)
    ensures y.gotI == y.sentR == y.gotR == y.sentI
  {
    hide Wire, Unread, Due, Drop, Delivered, Stream.Unsent, Frame.Encode, Reply;
    ReplyMeaning(c, c.protocol);
    ReplyMeaning(c, y.i.protocol.value);
  }

  /** A responder that has not bound a protocol has no application data waiting. */
  lemma NoDataBeforeBinding(c: Config, y: System)
    requires Inv(c, y) && Proposable(c) && y.r.protocol.None?
    ensures y.appI == []
  {
    hide Wire, Unread, Due, Drop, Delivered, Stream.Unsent, InitiatorOk, ResponderOk;
    if y.appI != [] {
      DoneIsBound(c, y);
    }
  }

  /** What the responder does when the frame it was sending is out. */
  function Sent(s: Stream, io: Io): Out
    requires s.Valid()
  {
    if s.protocol.None? then FlushTo(s, io.write, InReadProtocol)
    else
      var o := SendPrepared(s, io.write);
      if o.status == Continue && o.stream.outFrame == [] then Complete(o, io.onOpen) else o
  }

  lemma InboundSendStep(registry: seq<Id>, s: Stream, io: Io)
    requires s.Valid() && Obeys(s, io.read) && !s.outbound && Replying(s.neg)
    requires s.neg != InSendProtocol ==> s.protocol.None?
    ensures Step(registry, s, io) == Finish(Sent(s, io))
  {
    hide SendPrepared;
  }

  lemma SentShape(s: Stream, io: Io)
    requires s.Valid() && Pending(s)
    ensures
      var o := Finish(Sent(s, io));
      && o.wrote + o.stream.Unsent() == s.Unsent() && o.took == [] && o.message.None?
      && o.stream == s.(outFrame := o.stream.outFrame, outPos := o.stream.outPos, neg := o.stream.neg)
      && o.stream.Valid()
      && (o.stream.neg == Failed
          || (o.stream.neg == s.neg && Pending(o.stream))
          || (o.stream.outFrame == [] && o.stream.neg == if s.protocol.None? then InReadProtocol else Done))
  {
    hide Frame.Encode, FlushTo, SendPrepared;
    if s.protocol.None? {
      FlushShape(s, io.write, InReadProtocol);
    } else {
      SendShape(s, io.write);
    }
  }

  lemma SendShape(s: Stream, w: WriteAnswer)
    requires s.Valid() && Pending(s)
    ensures
      var o := SendPrepared(s, w);
      && !o.status.Completed?
      && (if o.stream.outFrame == [] && !o.status.Failure?
          then o.status == Continue && o.stream == s.(outFrame := [], outPos := 0)
          else o.stream == s.(outPos := o.stream.outPos) && Pending(o.stream))
  {
  }

  lemma ResponderSendMoves(c: Config, y: System, io: Io)
    requires Inv(c, y) && Enabled(y, StepResponder(io)) && Replying(y.r.neg)
    ensures ResponderMoves(c, y, Step(c.registry, y.r, io))
  {
    hide Frame.Encode, Frame.Encodes, Wire, Unread, Due, Drop, Delivered, Stream.Unsent, OutboundStep, InboundStep;
    hide Step, Sent, Finish, Reply;
    InboundSendStep(c.registry, y.r, io);
    SentShape(y.r, io);
    var o := Finish(Sent(y.r, io));
    NoData(y.appR, y.handedI);
    DropNone(y.ir);
    WireAfterWrite(y.i.inFrame, y.ri, y.r.Unsent(), o.wrote, o.stream.Unsent(), Due(Replies(c), y.gotI, y.sentR), []);
  }

  predicate Listening(neg: NegState) {
    neg == InReadMs || neg == InReadProtocol
  }

  /** The responder's reaction to the request it was waiting for. */
  function Judged(c: Config, s: Stream, o: Out): Out
    requires o.stream.Valid()
  {
    if o.message.None? then o
    else if s.neg == InReadProtocol then Judge(c.registry, o, o.message.value)
    else if o.message.value == MS then Answer(o, MS, InSendProtocol)
    else o.(status := Failure(ErrNegotiation))
  }

  lemma InboundReadStep(c: Config, s: Stream, io: Io)
    requires s.Valid() && Obeys(s, io.read) && !s.outbound && Listening(s.neg)
    ensures Step(c.registry, s, io) == Finish(Judged(c, s, ReadMessage(s, io.read)))
  {
    hide ReadMessage, Judge, Answer;
  }

  lemma ResponderHears(c: Config, y: System, r: ReadAnswer)
    requires Inv(c, y) && Proposable(c) && Pipes(y.r, y.ir, r) && Listening(y.r.neg)
    ensures
      var o := ReadMessage(y.r, r);
      var got := y.gotR + Count(o.message.Some?);
      && |o.took| <= |y.ir| && got <= y.sentI
      && (o.message.Some? ==> o.message.value == Requests(c)[y.gotR] && o.status == Continue)
      && (o.status.Failure? ==> r == ReadError && o.status.error == ErrTransport)
      && Wire(o.stream.inFrame, Drop(y.ir, |o.took|), y.i.Unsent(), Due(Requests(c), got, y.sentI),
            Unread(y.appI, y.handedR))
  {
    hide Frame.Encode, Frame.Encodes, Wire, Unread, Due, Drop, Delivered, Stream.Unsent, ReadMessage, Reply;
    NoDataBeforeBinding(c, y);
    NoData(y.appI, y.handedR);
    var ms := Due(Requests(c), y.gotR, y.sentI);
    DueFirst(Requests(c), y.gotR, y.sentI);
    ReadSees(y.r, r, y.ir, y.i.Unsent(), ms, Unread(y.appI, y.handedR));
  }

  /** Judging the next request prepares exactly the reply due to it, or fails without preparing any. */
  lemma ResponderJudgesControl(c: Config, s: Stream, got: nat, o: Out)
    requires ResponderOk(c, s, got, got) && Listening(s.neg) && got < |Requests(c)|
    requires o.stream.Valid() && o.stream == s.(inFrame := o.stream.inFrame)
    requires o.message == Some(Requests(c)[got]) && o.status == Continue
    ensures
      var a := Finish(Judged(c, s, o));
      && a.message == o.message && a.took == o.took && a.wrote == o.wrote && a.stream.inFrame == o.stream.inFrame
      && (if a.stream.outFrame == [] then ResponderOk(c, a.stream, got + 1, got)
          else ResponderOk(c, a.stream, got + 1, got + 1) && a.stream.Unsent() == Frame.Encode(Replies(c)[got]))
  {
    hide Frame.Encode, Frame.Encodes, Judge, Reply;
    Frame.EncodedSize(Replies(c)[got]);
    if s.neg == InReadProtocol {
      ProposalDue(c, got);
      JudgesProposal(c, o, Requests(c)[got]);
    }
  }

  lemma ProposalDue(c: Config, got: nat)
    requires 1 <= got < |Requests(c)|
    ensures Replies(c)[got] == Reply(c, Requests(c)[got])
  {
    hide Reply;
  }

  /** What is judged is answered with the reply due to it, or it is a listing that is too long. */
  lemma JudgesProposal(c: Config, o: Out, id: Frame.Payload)
    requires o.stream.Valid() && o.stream.outFrame == [] && o.status == Continue && o.stream.protocol.None?
    ensures
      var a := Judge(c.registry, o, id);
      if a.status.Failure? then a == o.(status := a.status) && !Supports(c, id)
      else
        && a.status == Continue && a.wrote == o.wrote
        && a.stream == o.stream.(outFrame := Frame.Encode(Reply(c, id)), outPos := 0, neg := a.stream.neg,
              protocol := a.stream.protocol)
        && (if Supports(c, id) then a.stream.protocol == Some(id) && a.stream.neg == InSendProtocol
            else a.stream.protocol == None && (a.stream.neg == InSendNa || a.stream.neg == InSendLs))
  {
    hide Frame.Encode, Frame.Encodes;
  }

  lemma ResponderHearMoves(c: Config, y: System, io: Io)
    requires Inv(c, y) && Proposable(c) && Enabled(y, StepResponder(io)) && Listening(y.r.neg)
    ensures ResponderMoves(c, y, Step(c.registry, y.r, io))
  {
    hide Frame.Encode, Frame.Encodes, Wire, Unread, Due, Drop, Delivered, Stream.Unsent, OutboundStep, InboundStep;
    hide Step, ReadMessage, Judged, Finish, Reply;
    var o := ReadMessage(y.r, io.read);
    ResponderHears(c, y, io.read);
    InboundReadStep(c, y.r, io);
    NoData(y.appR, y.handedI);
    NothingUnsent(y.r);
    assert y.ri + [] == y.ri;
    if o.message.Some? {
      ResponderJudgesControl(c, y.r, y.gotR, o);
      var t := Finish(Judged(c, y.r, o)).stream;
      if t.outFrame == [] { NothingUnsent(t); }
      WireAfterPrepare(y.i.inFrame, y.ri, Replies(c), y.gotI, y.sentR);
    } else {
      SilentStep(c, y.r, o);
      NothingUnsent(Finish(Judged(c, y.r, o)).stream);
    }
  }

  lemma SilentStep(c: Config, s: Stream, o: Out)
    requires o.stream.Valid() && o.message.None? && s.Valid() && o.stream == s.(inFrame := o.stream.inFrame)
    ensures
      var a := Finish(Judged(c, s, o));
      && a == o.(stream := o.stream.(neg := a.stream.neg), progress := a.progress)
      && (a.stream.neg == s.neg || a.stream.neg == Failed)
  {
  }

  /** Every step of the responder keeps the invariant. */
  lemma ResponderStepKeeps(c: Config, y: System, io: Io)
    requires Inv(c, y) && Proposable(c) && Enabled(y, StepResponder(io))
    ensures Inv(c, Apply(c, y, StepResponder(io)))
  {
    if Listening(y.r.neg) {
      ResponderHearMoves(c, y, io);
    } else {
      ResponderSendMoves(c, y, io);
    }
    ResponderMoveKeeps(c, y, Step(c.registry, y.r, io));
  }

  // --------------------------------------------- application data and aborts

  lemma WireAppend(inFrame: seq<byte>, pipe: seq<byte>, ms: seq<Frame.Payload>, app: seq<byte>, handed: seq<byte>,
                   bytes: seq<byte>)
    requires Delivered(handed, app) && Wire(inFrame, pipe, [], ms, Unread(app, handed))
    ensures Delivered(handed, app + bytes) && Wire(inFrame, pipe + bytes, [], ms, Unread(app + bytes, handed))
  {
    var rest := Unread(app, handed);
    assert Unread(app + bytes, handed) == rest + bytes && handed <= app + bytes;
    hide Frame.Encodes, Unread;
    assert inFrame + (pipe + bytes) + [] == (inFrame + pipe + []) + bytes;
    assert Frame.Encodes(ms) + (rest + bytes) == (Frame.Encodes(ms) + rest) + bytes;
  }

  lemma WriteInitiatorKeeps(c: Config, y: System, bytes: seq<byte>)
    requires Inv(c, y) && y.i.neg == Done
    ensures Inv(c, Apply(c, y, WriteInitiator(bytes)))
  {
    hide Frame.Encode, Frame.Encodes, Reply, Wire, Unread, Due, Drop, Delivered, Stream.Unsent;
    NothingUnsent(y.i);
    WireAppend(y.r.inFrame, y.ir, Due(Requests(c), y.gotR, y.sentI), y.appI, y.handedR, bytes);
  }

  lemma WriteResponderKeeps(c: Config, y: System, bytes: seq<byte>)
    requires Inv(c, y) && y.r.neg == Done
    ensures Inv(c, Apply(c, y, WriteResponder(bytes)))
  {
    hide Frame.Encode, Frame.Encodes, Reply, Wire, Unread, Due, Drop, Delivered, Stream.Unsent;
    NothingUnsent(y.r);
    WireAppend(y.i.inFrame, y.ri, Due(Replies(c), y.gotI, y.sentR), y.appR, y.handedI, bytes);
  }

  /** Once an end is done, its unread input is application data only: the next bytes the peer wrote. */
  lemma HandedNext(s: Stream, pipe: seq<byte>, unsent: seq<byte>, app: seq<byte>, handed: seq<byte>, count: nat)
    requires Delivered(handed, app) && Wire(s.inFrame, pipe, unsent, [], Unread(app, handed))
    ensures
      var h := StreamRead(s, pipe, count);
      && Delivered(handed + h.bytes, app)
      && Wire(h.inFrame, h.pipe, unsent, [], Unread(app, handed + h.bytes))
  {
    hide StreamRead, Unread, Due, Drop, Delivered, Stream.Unsent;
    var h := StreamRead(s, pipe, count);
    var tail := Unread(app, handed);
    var rest := h.inFrame + h.pipe + unsent;
    assert tail == s.inFrame + pipe + unsent by { assert Frame.Encodes([]) + tail == tail; }
    Advance(app, handed, h.bytes, rest) by {
      assert h.bytes + rest == h.bytes + h.inFrame + h.pipe + unsent;
    }
    assert Frame.Encodes([]) + rest == rest;
  }

  lemma Advance(app: seq<byte>, handed: seq<byte>, next: seq<byte>, rest: seq<byte>)
    requires Delivered(handed, app) && Unread(app, handed) == next + rest
    ensures Delivered(handed + next, app) && Unread(app, handed + next) == rest
  {
    assert app == handed + app[|handed|..] == handed + next + rest;
  }

  /** Control depends on the leftover buffer only through its length. */
  lemma LeftoverIrrelevant(c: Config, s: Stream, sent: nat, got: nat, inFrame: seq<byte>)
    requires |inFrame| <= |s.inFrame|
    ensures InitiatorOk(c, s, sent, got) ==> InitiatorOk(c, s.(inFrame := inFrame), sent, got)
    ensures ResponderOk(c, s, got, sent) ==> ResponderOk(c, s.(inFrame := inFrame), got, sent)
  {
    hide Replies, Requests, Bound, Declined;
  }

  lemma ReadInitiatorKeeps(c: Config, y: System, count: nat)
    requires Inv(c, y) && y.i.neg == Done
    ensures Inv(c, HandInitiator(y, StreamRead(y.i, y.ri, count)))
  {
    hide StreamRead, Wire, Unread, Due, Drop, Delivered, Stream.Unsent, Replies, Requests, InitiatorOk, ResponderOk;
    hide Declined;
    DoneHasReadAll(c, y);
    var h := StreamRead(y.i, y.ri, count);
    NoneDue(Replies(c), y.gotI);
    UnsentSame(y.i, h.inFrame);
    LeftoverShrinks(y.i, y.ri, count);
    LeftoverIrrelevant(c, y.i, y.sentI, y.gotI, h.inFrame);
    HandedNext(y.i, y.ri, y.r.Unsent(), y.appR, y.handedI, count);
  }

  lemma DoneHasReadAll(c: Config, y: System)
    requires Inv(c, y) && y.i.neg == Done
    ensures y.gotI == y.sentR == y.sentI
  {
    hide Wire, Unread, Due, Delivered, Stream.Unsent, Replies, ResponderOk;
  }

  lemma UnsentSame(s: Stream, inFrame: seq<byte>)
    ensures s.(inFrame := inFrame).Unsent() == s.Unsent()
  {
  }

  lemma LeftoverShrinks(s: Stream, pipe: seq<byte>, count: nat)
    ensures |StreamRead(s, pipe, count).inFrame| <= |s.inFrame|
  {
  }

  lemma ReadResponderKeeps(c: Config, y: System, count: nat)
    requires Inv(c, y) && Proposable(c) && y.r.neg == Done
    ensures Inv(c, HandResponder(y, StreamRead(y.r, y.ir, count)))
  {
    hide StreamRead, Wire, Unread, Due, Drop, Delivered, Stream.Unsent, Replies, Requests, InitiatorOk, ResponderOk;
    hide Declined, Proposable;
    BoundHasReadAll(c, y);
    var h := StreamRead(y.r, y.ir, count);
    NoneDue(Requests(c), y.gotR);
    UnsentSame(y.r, h.inFrame);
    LeftoverShrinks(y.r, y.ir, count);
    LeftoverIrrelevant(c, y.r, y.sentR, y.gotR, h.inFrame);
    HandedNext(y.r, y.ir, y.i.Unsent(), y.appI, y.handedR, count);
  }

  /** A responder that bound a protocol has consumed every message the initiator prepared. */
  lemma BoundHasReadAll(c: Config, y: System)
    requires Inv(c, y) && Proposable(c) && (y.r.protocol.Some? || y.r.neg == Done)
    ensures y.gotR == y.sentI
  {
    hide Wire, Unread, Due, Drop, Delivered, Stream.Unsent, Frame.Encode, Reply;
    ReplyMeaning(c, c.protocol);
  }

  /** Giving up is compatible with everything said about an end that is still negotiating. */
  lemma MayGiveUp(c: Config, s: Stream, sent: nat, got: nat)
    requires Negotiating(s)
    ensures InitiatorOk(c, s, sent, got) ==> InitiatorOk(c, s.(neg := Failed), sent, got)
    ensures ResponderOk(c, s, got, sent) ==> ResponderOk(c, s.(neg := Failed), got, sent)
  {
    hide Replies, Requests, Bound, Declined;
  }

  lemma InitiatorGivesUp(c: Config, y: System)
    requires Inv(c, y) && Negotiating(y.i)
    ensures Inv(c, y.(i := y.i.(neg := Failed)))
  {
    MayGiveUp(c, y.i, y.sentI, y.gotI);
    assert y.appI == [];
    assert y.i.(neg := Failed).Unsent() == y.i.Unsent();
    hide Wire, Unread, Due, Drop, Delivered, Stream.Unsent, Requests, Replies, Declined, InitiatorOk, ResponderOk;
  }

  lemma ResponderGivesUp(c: Config, y: System)
    requires Inv(c, y) && Negotiating(y.r)
    ensures Inv(c, y.(r := y.r.(neg := Failed)))
  {
    MayGiveUp(c, y.r, y.sentR, y.gotR);
    assert y.appR == [];
    assert y.r.(neg := Failed).Unsent() == y.r.Unsent();
    hide Wire, Unread, Due, Drop, Delivered, Stream.Unsent, Requests, Replies, Declined, InitiatorOk, ResponderOk;
  }

  // -------------------------------------------------------------- theorems

  lemma ApplyKeeps(c: Config, y: System, l: Label)
    requires Inv(c, y) && Proposable(c) && Enabled(y, l)
    ensures Inv(c, Apply(c, y, l))
  {
    hide Inv, Step, StreamRead;
    match l
    case StepInitiator(io) => InitiatorStepKeeps(c, y, io);
    case StepResponder(io) => ResponderStepKeeps(c, y, io);
    case WriteInitiator(bytes) => WriteInitiatorKeeps(c, y, bytes);
    case WriteResponder(bytes) => WriteResponderKeeps(c, y, bytes);
    case ReadInitiator(count) => ReadInitiatorKeeps(c, y, count);
    case ReadResponder(count) => ReadResponderKeeps(c, y, count);
    case AbortInitiator => InitiatorGivesUp(c, y);
    case AbortResponder => ResponderGivesUp(c, y);
  }

  lemma InitHolds(c: Config)
    ensures Inv(c, Init(c))
  {
    assert Frame.Encodes([]) == [];
  }

  /** The invariant holds at the end of every run. */
  lemma {:induction false} RunKeeps(c: Config, labels: seq<Label>)
    requires Proposable(c) && Run(c, labels).Some?
    ensures Inv(c, Run(c, labels).value)
    decreases |labels|
  {
    hide Inv, Apply, Enabled, Init, Proposable;
    if labels == [] {
      InitHolds(c);
    } else {
      var k := |labels| - 1;
      RunKeeps(c, labels[..k]);
      ApplyKeeps(c, Run(c, labels[..k]).value, labels[k]);
    }
  }

  /**
    Agreement. However the bytes are cut and the ends interleaved, an initiator that finishes has the
    responder bound to the same protocol, and that is the first of its proposals the responder registers.
  */
  lemma Agreement(c: Config, labels: seq<Label>, y: System)
    requires Proposable(c) && Run(c, labels) == Some(y)
    ensures y.i.neg == Done ==> y.i.protocol.Some? && y.r.protocol == y.i.protocol == Choice(c)
    ensures y.r.protocol.Some? ==> y.r.protocol == Choice(c)
  {
    hide Run;
    RunKeeps(c, labels);
    if y.i.neg == Done { DoneIsBound(c, y); }
    if y.r.protocol.Some? { BoundIsChoice(c, y); }
  }

  lemma BoundIsChoice(c: Config, y: System)
    requires Inv(c, y) && y.r.protocol.Some?
    ensures y.r.protocol == Choice(c)
  {
    hide Wire, Unread, Due, Drop, Delivered, Stream.Unsent, Reply, Frame.Encode;
    ReplyMeaning(c, c.protocol);
  }

  predicate Waiting(s: Stream) {
    (Hearing(s.neg) || Listening(s.neg)) && Frame.Decode(s.inFrame) == Frame.Truncated
  }

  /** No deadlock: the two ends never both wait for input while both pipes are empty. */
  lemma NoDeadlock(c: Config, labels: seq<Label>, y: System)
    requires Proposable(c) && Run(c, labels) == Some(y)
    ensures !(Waiting(y.i) && Waiting(y.r) && y.ir == [] && y.ri == [])
  {
    hide Run, Frame.Decode, Inv;
    RunKeeps(c, labels);
    Directions(c, y);
    if Waiting(y.i) && Waiting(y.r) && y.ir == [] && y.ri == [] {
      BothIdle(c, y);
    }
  }

  lemma Directions(c: Config, y: System)
    requires Inv(c, y)
    ensures !Listening(y.i.neg) && !Hearing(y.r.neg)
  {
    hide Wire, Unread, Due, Drop, Delivered, Stream.Unsent;
  }

  lemma BothIdle(c: Config, y: System)
    requires Inv(c, y) && y.ir == [] && y.ri == [] && Hearing(y.i.neg) && Listening(y.r.neg)
    ensures Frame.Decode(y.i.inFrame) != Frame.Truncated || Frame.Decode(y.r.inFrame) != Frame.Truncated
  {
    NothingUnsent(y.i);
    NothingUnsent(y.r);
    assert y.gotR < y.sentI || y.gotI < y.sentR;
    hide Wire, Unread, Due, Drop, Delivered, Stream.Unsent, Frame.Decode, Requests, Replies, InitiatorOk, ResponderOk;
    hide Declined;
    if y.gotR < y.sentI {
      UnreadIsReadable(y.r, Due(Requests(c), y.gotR, y.sentI), Unread(y.appI, y.handedR));
    } else {
      UnreadIsReadable(y.i, Due(Replies(c), y.gotI, y.sentR), Unread(y.appR, y.handedI));
    }
  }

  /** With the pipe empty and nothing unsent, a reader that has not consumed every message can decode one. */
  lemma UnreadIsReadable(s: Stream, ms: seq<Frame.Payload>, tail: seq<byte>)
    requires Wire(s.inFrame, [], [], ms, tail) && ms != []
    ensures Frame.Decode(s.inFrame) != Frame.Truncated
  {
    hide Frame.Encode, Frame.Decode;
    assert s.inFrame + [] + [] == s.inFrame + [];
    Frame.DecodeStream(s.inFrame, [], ms, tail);
    var f, rest := Frame.Encode(ms[0]), Frame.Encodes(ms[1..]);
    assert s.inFrame + [] + [] == s.inFrame && (f + rest) + tail == f + (rest + tail);
  }

  /**
    Conservation of application data. What stream_read has handed out is a prefix of what the peer wrote;
    once both ends are done the rest of it is exactly what sits in the leftover buffer and the pipe.
  */
  lemma DataConserved(c: Config, labels: seq<Label>, y: System)
    requires Proposable(c) && Run(c, labels) == Some(y)
    ensures y.handedR <= y.appI && y.handedI <= y.appR
    ensures y.i.neg == Done && y.r.neg == Done ==>
      && y.handedR + y.r.inFrame + y.ir == y.appI
      && y.handedI + y.i.inFrame + y.ri == y.appR
  {
    RunKeeps(c, labels);
    hide Run, InitiatorOk, ResponderOk, Wire, Unread, Due, Drop, Delivered, Stream.Unsent;
    if y.i.neg == Done && y.r.neg == Done {
      BothDone(c, y);
    }
  }

  lemma BothDone(c: Config, y: System)
    requires Inv(c, y) && Proposable(c) && y.i.neg == Done && y.r.neg == Done
    ensures y.handedR + y.r.inFrame + y.ir == y.appI
    ensures y.handedI + y.i.inFrame + y.ri == y.appR
  {
    DoneIsBound(c, y);
    hide Wire, Unread, Due, Drop, Delivered, Stream.Unsent, Requests, Replies;
    assert y.i.Unsent() == [] && y.r.Unsent() == [];
    NoneDue(Requests(c), y.gotR);
    NoneDue(Replies(c), y.gotI);
    Remainder(y.handedR, y.r.inFrame, y.ir, y.appI);
    Remainder(y.handedI, y.i.inFrame, y.ri, y.appR);
  }

  lemma Remainder(handed: seq<byte>, inFrame: seq<byte>, pipe: seq<byte>, app: seq<byte>)
    requires Delivered(handed, app) && Wire(inFrame, pipe, [], [], Unread(app, handed))
    ensures handed + inFrame + pipe == app
  {
    var tail := Unread(app, handed);
    assert Frame.Encodes([]) + tail == tail;
    assert inFrame + pipe + [] == inFrame + pipe;
    assert app == handed + tail;
    assert handed + inFrame + pipe == handed + (inFrame + pipe);
  }

  /** The word "ls" goes out as a proposal: as the first, or as the fallback of a declined one. */
  predicate AsksForList(c: Config) {
    c.protocol == LS || (c.fallback == Some(LS) && !Supports(c, c.protocol))
  }

  /** Why a step of the initiator may fail when the peer is a host running the same code. */
  predicate ExcusedInitiator(c: Config, io: Io, e: Error) {
    || (e == ErrTransport && (io.write == WriteError || io.read == ReadError))
    || (e == ErrProtocol && !io.onOpen)
    || (e == ErrUnsupported && Choice(c) == None && !AsksForList(c))
    || (e == ErrNegotiation && AsksForList(c))
  }

  lemma HeardFailure(c: Config, s: Stream, sent: nat, got: nat, o: Out, io: Io)
    requires InitiatorOk(c, s, sent, got) && Hearing(s.neg) && got < |Replies(c)| && o.stream.Valid()
    requires o.message.Some? ==> o.message.value == Replies(c)[got] && o.status == Continue
    requires o.message.None? && o.status.Failure? ==> io.read == ReadError && o.status.error == ErrTransport
    ensures
      var a := Heard(s, o, io.onOpen);
      a.status.Failure? ==> ExcusedInitiator(c, io, a.status.error)
  {
    ReplyMeaning(c, c.protocol);
    ReplyMeaning(c, s.protocol.value);
    LsPayloadEndsInNewline(c.registry);
  }

  lemma FlushFailure(s: Stream, w: WriteAnswer, next: NegState)
    requires s.Valid()
    ensures
      var o := FlushTo(s, w, next);
      o.status.Failure? ==> w == WriteError && o.status.error == ErrTransport
  {
  }

  lemma InitiatorFailsWithCause(c: Config, y: System, io: Io)
    requires Inv(c, y) && Proposable(c) && Enabled(y, StepInitiator(io))
    ensures
      var o := Step([], y.i, io);
      o.status.Failure? ==> ExcusedInitiator(c, io, o.status.error)
  {
    if Hearing(y.i.neg) {
      OutboundReadStep(y.i, io);
      InitiatorHears(c, y, io.read);
      assert y.gotI < |Replies(c)|;
      hide Frame.Encode, ReadMessage, Heard, Reply, Step, Wire, Unread, Due, Drop, Delivered, Stream.Unsent;
      hide ExcusedInitiator, InitiatorOk, ResponderOk, Replies, Requests;
      HeardFailure(c, y.i, y.sentI, y.gotI, ReadMessage(y.i, io.read), io);
    } else {
      OutboundSendStep(y.i, io);
      var t := Loaded(y.i);
      hide Inv, Loaded, Step, Outgoing;
      FlushFailure(t, io.write, NextOut(y.i));
    }
  }

  /** And why a step of the responder may fail. */
  predicate ExcusedResponder(c: Config, io: Io, e: Error) {
    || (e == ErrTransport && (io.write == WriteError || io.read == ReadError))
    || (e == ErrProtocol && !io.onOpen)
    || (e == ErrNegotiation && AsksForList(c) && |LsPayload(c.registry)| > Frame.MAX_PAYLOAD)
  }

  lemma JudgedFailure(c: Config, s: Stream, got: nat, sent: nat, o: Out, io: Io)
    requires ResponderOk(c, s, got, sent) && Listening(s.neg) && o.stream.Valid()
    requires o.message.Some? ==> got < |Requests(c)| && o.message.value == Requests(c)[got] && o.status == Continue
    requires o.message.None? && o.status.Failure? ==> io.read == ReadError && o.status.error == ErrTransport
    ensures
      var a := Judged(c, s, o);
      a.status.Failure? ==> ExcusedResponder(c, io, a.status.error)
  {
    hide Frame.Encode, Frame.Encodes;
  }

  lemma SentFailure(s: Stream, io: Io)
    requires s.Valid()
    ensures
      var o := Sent(s, io);
      && (o.status.Failure? && o.status.error != ErrProtocol ==>
            io.write == WriteError && o.status.error == ErrTransport)
      && (o.status.Failure? && o.status.error == ErrProtocol ==> !io.onOpen)
  {
    FlushFailure(s, io.write, InReadProtocol);
  }

  lemma ResponderFailsWithCause(c: Config, y: System, io: Io)
    requires Inv(c, y) && Proposable(c) && Enabled(y, StepResponder(io))
    ensures
      var o := Step(c.registry, y.r, io);
      o.status.Failure? ==> ExcusedResponder(c, io, o.status.error)
  {
    hide ReadMessage, Judged, Sent, Step, Wire, ExcusedResponder, InitiatorOk, Replies, Requests, Declined, Proposable;
    if Listening(y.r.neg) {
      InboundReadStep(c, y.r, io);
      ResponderHears(c, y, io.read);
      JudgedFailure(c, y.r, y.gotR, y.sentR, ReadMessage(y.r, io.read), io);
    } else {
      InboundSendStep(c.registry, y.r, io);
      SentFailure(y.r, io);
      SentExcused(c, io, Sent(y.r, io));
    }
  }

  lemma SentExcused(c: Config, io: Io, o: Out)
    requires o.status.Failure? && o.status.error != ErrProtocol ==>
      io.write == WriteError && o.status.error == ErrTransport
    requires o.status.Failure? && o.status.error == ErrProtocol ==> !io.onOpen
    ensures o.status.Failure? ==> ExcusedResponder(c, io, o.status.error)
  {
  }

  /**
    Negotiation between two hosts fails for a reason outside it: a transport error, a protocol callback that
    refuses, no common protocol, or "ls" going out as a proposal.
  */
  lemma FailureHasCause(c: Config, labels: seq<Label>, y: System, io: Io)
    requires Proposable(c) && Run(c, labels) == Some(y)
    ensures Enabled(y, StepInitiator(io)) ==>
      var o := Step([], y.i, io);
      o.status.Failure? ==> ExcusedInitiator(c, io, o.status.error)
    ensures Enabled(y, StepResponder(io)) ==>
      var o := Step(c.registry, y.r, io);
      o.status.Failure? ==> ExcusedResponder(c, io, o.status.error)
  {
    hide Run, Step, Inv, Enabled, ExcusedInitiator, ExcusedResponder;
    RunKeeps(c, labels);
    if Enabled(y, StepInitiator(io)) { InitiatorFailsWithCause(c, y, io); }
    if Enabled(y, StepResponder(io)) { ResponderFailsWithCause(c, y, io); }
  }
}
