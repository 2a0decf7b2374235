/**
  Every negotiation step that changes anything uses up a measure, until both ends are done some end can take such a
  step, and so a negotiation can be brought to its end from every reachable state.
*/
module SessionProgress {
  import opened Bytes
  import opened Negotiation
  import opened Session
  import opened SessionProofs
  import Frame

  // ------------------------------------------------------------------------- a measure

  const WEIGHT: nat := 2 * Frame.MAX_ENCODED + 1

  function Still(n: nat, k: nat): nat { if k < n then n - k else 0 }

  /** Messages still to be prepared and to be consumed at either end. */
  function MessagesLeft(c: Config, y: System): nat {
    var n := |Requests(c)|;
    Still(n, y.sentI) + Still(n, y.gotR) + Still(n, y.sentR) + Still(n, y.gotI)
  }

  /** What an end can still take in before it consumes a message, and one for its own end; none when it has ended. */
  function Room(s: Stream): nat {
    if Negotiating(s) && |s.inFrame| <= Frame.MAX_ENCODED then 1 + Frame.MAX_ENCODED - |s.inFrame| else 0
  }

  /** Bytes to be sent, and room for bytes to be read. The pipes do not count: application data may be in them. */
  function BytesLeft(y: System): nat {
    |y.i.Unsent()| + |y.r.Unsent()| + Room(y.i) + Room(y.r)
  }

  function Measure(c: Config, y: System): nat {
    WEIGHT * MessagesLeft(c, y) + BytesLeft(y)
  }

  // --------------------------------------------------------------- what one step uses up

  /** The end moved something: it prepared or consumed a message, or exchanged bytes. */
  predicate Moved(s: Stream, o: Out) {
    Prepares(s, o) || o.message.Some? || o.wrote != [] || o.took != []
  }

  /** Unsent bytes only go down, by those written, unless a frame is prepared. */
  predicate Accounts(s: Stream, o: Out) {
    |o.wrote| + |o.stream.Unsent()| <= |s.Unsent()| + if Prepares(s, o) then Frame.MAX_ENCODED else 0
  }

  /** A step that moved nothing left the end as it was, or failed. */
  predicate Idles(s: Stream, o: Out) {
    !Moved(s, o) ==> o.stream == s || o.stream.neg == Failed
  }

  lemma StillLess(n: nat, k: nat, b: bool)
    requires k + Count(b) <= n
    ensures Still(n, k + Count(b)) == Still(n, k) - Count(b)
  {
  }

  lemma Spent(w: nat, n: nat, n': nat, k: nat)
    requires n == n' + k
    ensures w * n == w * n' + w * k
  {
  }

  /** The room that a step takes up, or gives back with the message it consumes. */
  lemma RoomLeft(s: Stream, o: Out)
    requires s.Valid() && o.stream.Valid() && Negotiating(s)
    requires s.inFrame + o.took == Consumed(o.message) + o.stream.inFrame
    ensures
      var back := if o.message.Some? then Frame.MAX_ENCODED else 0;
      if Negotiating(o.stream) then Room(o.stream) <= Room(s) + back - |o.took| else Room(o.stream) < Room(s)
  {
    hide Frame.Encode;
    assert |s.inFrame + o.took| == |Consumed(o.message) + o.stream.inFrame|;
    if o.message.Some? { Frame.EncodedSize(o.message.value); }
  }

  lemma InitiatorSpends(c: Config, y: System, o: Out)
    requires Negotiating(y.i) && y.i.Valid() && o.stream.Valid() && Accounts(y.i, o)
    requires y.i.inFrame + o.took == Consumed(o.message) + o.stream.inFrame
    requires y.sentI + Count(Prepares(y.i, o)) <= |Requests(c)| && y.gotI + Count(o.message.Some?) <= |Requests(c)|
    ensures Measure(c, AfterInitiator(y, o)) <= Measure(c, y)
    ensures Moved(y.i, o) || !Negotiating(o.stream) ==> Measure(c, AfterInitiator(y, o)) < Measure(c, y)
  {
    hide Stream.Unsent, Still, Prepares, Requests, Consumed, Room, Negotiating, Stream.Valid;
    var n, z := |Requests(c)|, AfterInitiator(y, o);
    var k := Count(Prepares(y.i, o)) + Count(o.message.Some?);
    StillLess(n, y.sentI, Prepares(y.i, o));
    StillLess(n, y.gotI, o.message.Some?);
    RoomLeft(y.i, o);
    assert MessagesLeft(c, y) == MessagesLeft(c, z) + k;
    Spent(WEIGHT, MessagesLeft(c, y), MessagesLeft(c, z), k);
    Weighs(k);
  }

  lemma ResponderSpends(c: Config, y: System, o: Out)
    requires Negotiating(y.r) && y.r.Valid() && o.stream.Valid() && Accounts(y.r, o)
    requires y.r.inFrame + o.took == Consumed(o.message) + o.stream.inFrame
    requires y.sentR + Count(Prepares(y.r, o)) <= |Requests(c)| && y.gotR + Count(o.message.Some?) <= |Requests(c)|
    ensures Measure(c, AfterResponder(y, o)) <= Measure(c, y)
    ensures Moved(y.r, o) || !Negotiating(o.stream) ==> Measure(c, AfterResponder(y, o)) < Measure(c, y)
  {
    hide Stream.Unsent, Still, Prepares, Requests, Consumed, Room, Negotiating, Stream.Valid;
    var n, z := |Requests(c)|, AfterResponder(y, o);
    var k := Count(Prepares(y.r, o)) + Count(o.message.Some?);
    StillLess(n, y.sentR, Prepares(y.r, o));
    StillLess(n, y.gotR, o.message.Some?);
    RoomLeft(y.r, o);
    assert MessagesLeft(c, y) == MessagesLeft(c, z) + k;
    Spent(WEIGHT, MessagesLeft(c, y), MessagesLeft(c, z), k);
    Weighs(k);
  }

  lemma Weighs(k: nat)
    ensures k >= 1 ==> WEIGHT * k > 2 * Frame.MAX_ENCODED
  {
    if k >= 1 { assert WEIGHT * k == WEIGHT * (k - 1) + WEIGHT; }
  }

  // -------------------------------------------------------------------- the initiator

  lemma SendingAccounts(s: Stream, io: Io)
    requires s.Valid() && Obeys(s, io.read) && s.outbound && s.protocol.Some? && (s.outFrame == [] || Pending(s))
    requires s.neg == OutSendMs || s.neg == OutSendProtocol
    ensures Accounts(s, Step([], s, io)) && Idles(s, Step([], s, io))
    ensures io.write.Accepts? && io.write.count > 0 ==> Moved(s, Step([], s, io))
  {
    hide Step, FlushTo, Loaded, Finish, Outgoing, Frame.Encode;
    OutboundSendStep(s, io);
    SendsPrepare(s, io);
    var t := Loaded(s);
    FlushMoves(t, io.write, NextOut(s));
    if s.outFrame == [] {
      LoadedUnsent(s);
      NothingUnsent(s);
      Frame.EncodedSize(Outgoing(s));
    } else {
      PendingStays(s);
    }
  }

  /** What one write does to a pending frame. */
  lemma FlushMoves(s: Stream, w: WriteAnswer, next: NegState)
    requires s.Valid() && Pending(s)
    ensures
      var o := Finish(FlushTo(s, w, next));
      && |o.wrote| + |o.stream.Unsent()| == |s.Unsent()|
      && (o.wrote == [] ==> o.stream == s || o.stream.neg == Failed)
      && (w.Accepts? && w.count > 0 ==> o.wrote != [])
  {
    SendMoves(s, w);
    hide SendPrepared, Stream.Unsent;
  }

  lemma SendMoves(s: Stream, w: WriteAnswer)
    requires s.Valid() && Pending(s)
    ensures
      var o := SendPrepared(s, w);
      && |o.wrote| + |o.stream.Unsent()| == |s.Unsent()|
      && (o.wrote == [] ==> o.stream == s && s.outFrame != [])
      && (w.Accepts? && w.count > 0 ==> o.wrote != [])
  {
  }

  lemma HearingAccounts(s: Stream, io: Io)
    requires s.Valid() && Obeys(s, io.read) && s.outbound && Hearing(s.neg) && s.outFrame == []
    ensures Accounts(s, Step([], s, io)) && Idles(s, Step([], s, io))
    ensures
      var o := ReadMessage(s, io.read);
      o.message.Some? || o.took != [] ==> Moved(s, Step([], s, io))
  {
    hide Step, ReadMessage, Stream.Unsent;
    OutboundReadStep(s, io);
    NothingUnsent(s);
    var o := ReadMessage(s, io.read);
    HeardKeeps(s, o, io.onOpen);
    NothingUnsent(Step([], s, io).stream);
    assert s.inFrame + [] == s.inFrame && [] + o.stream.inFrame == o.stream.inFrame;
  }

  lemma HeardKeeps(s: Stream, o: Out, onOpen: bool)
    requires o.stream.Valid() && o.stream == s.(inFrame := o.stream.inFrame) && Hearing(s.neg) && o.wrote == []
    ensures
      var a := Finish(Heard(s, o, onOpen));
      && a.stream.Valid() && a.stream.outFrame == s.outFrame && a.took == o.took && a.message == o.message
      && a.wrote == []
      && (o.message.None? ==> a.stream == o.stream || a.stream.neg == Failed)
  {
  }

  /** Every step of the initiator uses up the measure, or moves nothing. */
  lemma InitiatorSteps(c: Config, y: System, io: Io)
    requires Inv(c, y) && Proposable(c) && Enabled(y, StepInitiator(io))
    ensures
      var z := Apply(c, y, StepInitiator(io));
      && (z == y || Measure(c, z) < Measure(c, y))
      && (Moved(y.i, Step([], y.i, io)) ==> Measure(c, z) < Measure(c, y))
  {
    hide Step, Measure, InitiatorOk, ResponderOk, Wire, Proposable, Moved, Accounts, Idles, Requests, Pipes;
    StepObeys(y, StepInitiator(io));
    var o := Step([], y.i, io);
    InitiatorStepMoves(c, y, io);
    InitiatorShape(c, y);
    if Hearing(y.i.neg) { HearingAccounts(y.i, io); } else { SendingAccounts(y.i, io); }
    InitiatorSpends(c, y, o);
    if !Moved(y.i, o) { NothingMoved(y, o); }
  }

  lemma NothingMoved(y: System, o: Out)
    requires !Moved(y.i, o) && Idles(y.i, o)
    ensures AfterInitiator(y, o) == y || o.stream.neg == Failed
  {
    DropNone(y.ri);
    assert y.ir + [] == y.ir;
  }

  lemma StepObeys(y: System, l: Label)
    requires Enabled(y, l)
    ensures l.StepInitiator? ==> Obeys(y.i, l.io.read) && y.i.Valid() && Negotiating(y.i)
    ensures l.StepResponder? ==> Obeys(y.r, l.io.read) && y.r.Valid() && Negotiating(y.r)
  {
  }

  /** How many messages a step may prepare and consume. */
  lemma InitiatorStepMoves(c: Config, y: System, io: Io)
    requires Inv(c, y) && Proposable(c) && Enabled(y, StepInitiator(io))
    ensures
      var o := Step([], y.i, io);
      && |o.took| <= |y.ri| && y.sentI + Count(Prepares(y.i, o)) <= |Requests(c)|
      && y.gotI + Count(o.message.Some?) <= |Requests(c)|
  {
    hide Step, InitiatorOk, ResponderOk, Wire, Proposable, Requests, Pipes;
    if Hearing(y.i.neg) { InitiatorHearMoves(c, y, io); } else { InitiatorSends(c, y, io); }
  }

  lemma InitiatorSends(c: Config, y: System, io: Io)
    requires Inv(c, y) && Enabled(y, StepInitiator(io)) && !Hearing(y.i.neg)
    ensures InitiatorMoves(c, y, Step([], y.i, io))
  {
    hide Step, ResponderOk, Wire, Requests, Replies, InitiatorMoves;
    InitiatorSendMoves(c, y, io);
  }

  lemma InitiatorShape(c: Config, y: System)
    requires Inv(c, y) && Negotiating(y.i)
    ensures y.i.outbound && y.i.protocol.Some? && y.i.Valid()
    ensures if Hearing(y.i.neg) then y.i.outFrame == [] else
              (y.i.neg == OutSendMs || y.i.neg == OutSendProtocol) && (y.i.outFrame == [] || Pending(y.i))
  {
    hide Wire, ResponderOk, Requests, Replies, Declined;
  }

  // -------------------------------------------------------------------- the responder

  lemma ReplyingAccounts(registry: seq<Id>, s: Stream, io: Io)
    requires s.Valid() && Obeys(s, io.read) && !s.outbound && Replying(s.neg) && Pending(s)
    requires s.neg != InSendProtocol ==> s.protocol.None?
    ensures Accounts(s, Step(registry, s, io)) && Idles(s, Step(registry, s, io))
    ensures io.write.Accepts? && io.write.count > 0 ==> Moved(s, Step(registry, s, io))
  {
    hide Step, FlushTo, SendPrepared;
    InboundSendStep(registry, s, io);
    FlushMoves(s, io.write, InReadProtocol);
    SendMoves(s, io.write);
  }

  lemma ListeningAccounts(c: Config, s: Stream, io: Io)
    requires s.Valid() && Obeys(s, io.read) && !s.outbound && Listening(s.neg) && s.outFrame == []
    ensures Accounts(s, Step(c.registry, s, io)) && Idles(s, Step(c.registry, s, io))
    ensures
      var o := ReadMessage(s, io.read);
      o.message.Some? || o.took != [] ==> Moved(s, Step(c.registry, s, io))
  {
    hide Step, ReadMessage, Judged, Stream.Unsent;
    InboundReadStep(c, s, io);
    NothingUnsent(s);
    var o := ReadMessage(s, io.read);
    JudgedKeeps(c, s, o);
    assert s.inFrame + [] == s.inFrame && [] + o.stream.inFrame == o.stream.inFrame;
  }

  lemma JudgedKeeps(c: Config, s: Stream, o: Out)
    requires s.Valid() && o.stream.Valid() && o.stream == s.(inFrame := o.stream.inFrame)
    requires s.outFrame == [] && o.wrote == []
    ensures
      var a := Finish(Judged(c, s, o));
      && a.took == o.took && a.message == o.message && a.wrote == [] && |a.stream.Unsent()| <= Frame.MAX_ENCODED
      && (a.stream.outFrame == [] ==> a.stream.Unsent() == [])
      && (o.message.None? ==> a.stream == o.stream || a.stream.neg == Failed)
  {
    hide Frame.Encode, Frame.Encodes, Judged, Stream.Unsent;
    JudgedValid(c, s, o);
    var t := Finish(Judged(c, s, o)).stream;
    UnsentShort(t);
    if t.outFrame == [] { NothingUnsent(t); }
    if o.message.None? { SilentStep(c, s, o); }
  }

  lemma JudgedValid(c: Config, s: Stream, o: Out)
    requires o.stream.Valid() && o.stream == s.(inFrame := o.stream.inFrame) && o.wrote == []
    ensures
      var a := Judged(c, s, o);
      a.stream.Valid() && a.took == o.took && a.message == o.message && a.wrote == []
  {
    hide Frame.Encode, Frame.Encodes;
  }

  lemma UnsentShort(s: Stream)
    ensures |s.Unsent()| <= |s.outFrame|
  {
  }

  lemma ResponderShape(c: Config, y: System)
    requires Inv(c, y) && Negotiating(y.r)
    ensures !y.r.outbound && y.r.Valid()
    ensures if Listening(y.r.neg) then y.r.outFrame == []
            else Replying(y.r.neg) && Pending(y.r) && (y.r.neg != InSendProtocol ==> y.r.protocol.None?)
  {
    hide Wire, InitiatorOk, Requests, Replies, Declined, Bound;
  }

  lemma ResponderStepMoves(c: Config, y: System, io: Io)
    requires Inv(c, y) && Proposable(c) && Enabled(y, StepResponder(io))
    ensures
      var o := Step(c.registry, y.r, io);
      && |o.took| <= |y.ir| && y.sentR + Count(Prepares(y.r, o)) <= |Requests(c)|
      && y.gotR + Count(o.message.Some?) <= |Requests(c)|
  {
    hide Step, InitiatorOk, ResponderOk, Wire, Proposable, Requests, Pipes;
    ResponderShape(c, y);
    if Listening(y.r.neg) { ResponderHearMoves(c, y, io); } else { ResponderSendMoves(c, y, io); }
  }

  /** Every step of the responder uses up the measure, or moves nothing. */
  lemma ResponderSteps(c: Config, y: System, io: Io)
    requires Inv(c, y) && Proposable(c) && Enabled(y, StepResponder(io))
    ensures
      var z := Apply(c, y, StepResponder(io));
      && (z == y || Measure(c, z) < Measure(c, y))
      && (Moved(y.r, Step(c.registry, y.r, io)) ==> Measure(c, z) < Measure(c, y))
  {
    hide Step, Measure, InitiatorOk, ResponderOk, Wire, Proposable, Moved, Accounts, Idles, Requests, Pipes;
    StepObeys(y, StepResponder(io));
    var o := Step(c.registry, y.r, io);
    ResponderStepMoves(c, y, io);
    ResponderShape(c, y);
    if Listening(y.r.neg) { ListeningAccounts(c, y.r, io); } else { ReplyingAccounts(c.registry, y.r, io); }
    ResponderSpends(c, y, o);
    if !Moved(y.r, o) { NothingMovedBack(y, o); }
  }

  lemma NothingMovedBack(y: System, o: Out)
    requires !Moved(y.r, o) && Idles(y.r, o)
    ensures AfterResponder(y, o) == y || o.stream.neg == Failed
  {
    DropNone(y.ir);
    assert y.ri + [] == y.ri;
  }

  // ------------------------------------------------------------------------ theorems

  predicate IsStep(l: Label) {
    l.StepInitiator? || l.StepResponder?
  }

  /** A negotiation step that changes anything uses up the measure, and nothing that happens adds to it. */
  lemma EveryStepCounts(c: Config, labels: seq<Label>, y: System, l: Label)
    requires Proposable(c) && Run(c, labels) == Some(y) && Enabled(y, l)
    ensures
      var z := Apply(c, y, l);
      Measure(c, z) < Measure(c, y) || if IsStep(l) then z == y else Measure(c, z) == Measure(c, y)
  {
    hide Run, Inv, Step, Proposable, Moved;
    RunKeeps(c, labels);
    match l
    case StepInitiator(io) => InitiatorSteps(c, y, io);
    case StepResponder(io) => ResponderSteps(c, y, io);
    case ReadInitiator(count) => UnsentSame(y.i, StreamRead(y.i, y.ri, count).inFrame);
    case ReadResponder(count) => UnsentSame(y.r, StreamRead(y.r, y.ir, count).inFrame);
    case _ =>
  }

  // ------------------------------------------------------------------- some step can move

  /** A transport that takes every byte and delivers what the pipe holds, and a protocol that agrees. */
  function Generous(s: Stream, pipe: seq<byte>): Io
    requires s.Valid()
  {
    var room := Frame.MAX_ENCODED - |s.inFrame|;
    Io(Accepts(Frame.MAX_ENCODED), Data(pipe[..if |pipe| < room then |pipe| else room], false), true)
  }

  lemma GenerousPipes(s: Stream, pipe: seq<byte>)
    requires s.Valid()
    ensures Pipes(s, pipe, Generous(s, pipe).read)
  {
  }

  /** A reader that has a frame in its buffer consumes it; one that has not takes bytes off the pipe. */
  lemma ReaderMoves(s: Stream, pipe: seq<byte>, unsent: seq<byte>, ms: seq<Frame.Payload>, tail: seq<byte>)
    requires s.Valid() && Wire(s.inFrame, pipe, unsent, ms, tail) && (ms != [] || tail == [])
    requires Frame.Decode(s.inFrame) != Frame.Truncated || pipe != []
    ensures
      var o := ReadMessage(s, Generous(s, pipe).read);
      o.message.Some? || o.took != []
  {
    hide Frame.Decode, Frame.Encode, Wire;
    ReadVerdicts(s.inFrame, [], pipe, unsent, ms, tail) by { assert pipe[..0] == []; }
    var r := Generous(s, pipe).read;
    if Frame.Decode(s.inFrame) == Frame.Truncated {
      assert |s.inFrame| < Frame.MAX_ENCODED;
      assert r.bytes != [];
      TookAll(s, r);
    }
  }

  lemma TookAll(s: Stream, r: ReadAnswer)
    requires s.Valid() && Obeys(s, r) && r.Data? && !r.fin
    requires Frame.Decode(s.inFrame) == Frame.Truncated && |s.inFrame| < Frame.MAX_ENCODED
    ensures ReadMessage(s, r).took == r.bytes
  {
    hide Frame.Decode, Frame.Encode;
  }

  predicate Readable(s: Stream, pipe: seq<byte>) {
    Frame.Decode(s.inFrame) != Frame.Truncated || pipe != []
  }

  lemma InitiatorReads(c: Config, y: System)
    requires Inv(c, y) && Proposable(c) && Hearing(y.i.neg) && Readable(y.i, y.ri)
    ensures y.i.Valid() && Enabled(y, StepInitiator(Generous(y.i, y.ri)))
    ensures Moved(y.i, Step([], y.i, Generous(y.i, y.ri)))
  {
    hide InitiatorOk, ResponderOk, Wire, Unread, Due, Replies, Requests, Step, ReadMessage, Frame.Decode, Proposable;
    hide Moved;
    InitiatorShape(c, y);
    AnswerFirst(c, y);
    if y.appR == [] { NoData(y.appR, y.handedI); }
    DueFirst(Replies(c), y.gotI, y.sentR);
    GenerousPipes(y.i, y.ri);
    ReaderMoves(y.i, y.ri, y.r.Unsent(), Due(Replies(c), y.gotI, y.sentR), Unread(y.appR, y.handedI));
    HearingAccounts(y.i, Generous(y.i, y.ri));
  }

  lemma ResponderReads(c: Config, y: System)
    requires Inv(c, y) && Proposable(c) && Listening(y.r.neg) && Readable(y.r, y.ir)
    ensures y.r.Valid() && Enabled(y, StepResponder(Generous(y.r, y.ir)))
    ensures Moved(y.r, Step(c.registry, y.r, Generous(y.r, y.ir)))
  {
    hide InitiatorOk, ResponderOk, Wire, Unread, Due, Replies, Requests, Step, ReadMessage, Frame.Decode, Proposable;
    hide Moved;
    ResponderShape(c, y);
    ListeningUnbound(c, y);
    NoDataBeforeBinding(c, y);
    NoData(y.appI, y.handedR);
    GenerousPipes(y.r, y.ir);
    ReaderMoves(y.r, y.ir, y.i.Unsent(), Due(Requests(c), y.gotR, y.sentI), Unread(y.appI, y.handedR));
    ListeningAccounts(c, y.r, Generous(y.r, y.ir));
  }

  lemma ListeningUnbound(c: Config, y: System)
    requires Inv(c, y) && Listening(y.r.neg)
    ensures y.r.protocol.None?
  {
    hide Wire, InitiatorOk, Requests, Replies, Declined;
  }

  /** Unless both ends are done or one has failed, one of them has something to send or to read. */
  lemma NotStuck(c: Config, y: System)
    requires Inv(c, y) && Proposable(c) && y.i.neg != Failed && y.r.neg != Failed
    requires Hearing(y.i.neg) ==> !Readable(y.i, y.ri)
    requires Listening(y.r.neg) ==> !Readable(y.r, y.ir)
    requires y.i.neg == Done || Hearing(y.i.neg)
    requires y.r.neg == Done || Listening(y.r.neg)
    ensures y.i.neg == Done && y.r.neg == Done
  {
    hide Wire, InitiatorOk, ResponderOk, Replies, Requests, Frame.Decode, Proposable;
    if Hearing(y.i.neg) && Listening(y.r.neg) {
      BothIdle(c, y);
    } else if Listening(y.r.neg) {
      DoneIsBound(c, y);
      ListeningUnbound(c, y);
    } else if Hearing(y.i.neg) {
      AnswerReadable(c, y);
    }
  }

  /** When the responder is done and nothing is in the pipe, its answer is in the initiator's buffer. */
  lemma AnswerReadable(c: Config, y: System)
    requires Inv(c, y) && Proposable(c) && y.r.neg == Done && Hearing(y.i.neg) && y.ri == []
    ensures Frame.Decode(y.i.inFrame) != Frame.Truncated
  {
    hide Wire, InitiatorOk, ResponderOk, Replies, Requests, Frame.Decode, Proposable, Unread, Due;
    BoundHasReadAll(c, y);
    AnswerDue(c, y);
    DueFirst(Replies(c), y.gotI, y.sentR);
    UnreadIsReadable(y.i, Due(Replies(c), y.gotI, y.sentR), Unread(y.appR, y.handedI));
  }

  lemma AnswerDue(c: Config, y: System)
    requires Inv(c, y) && y.r.neg == Done && Hearing(y.i.neg) && y.gotR == y.sentI
    ensures y.gotI < y.sentR && y.r.Unsent() == []
  {
    hide Wire, Replies, Declined, Unread, Due;
    NothingUnsent(y.r);
  }

  /** The step that some end can take. */
  lemma SomeMoves(c: Config, y: System) returns (l: Label)
    requires Inv(c, y) && Proposable(c) && y.i.neg != Failed
    requires y.r.neg != Failed && !(y.i.neg == Done && y.r.neg == Done)
    ensures Enabled(y, l) && Eager(y, l) && Measure(c, Apply(c, y, l)) < Measure(c, y)
  {
    hide Wire, InitiatorOk, ResponderOk, Replies, Requests, Step, Proposable, Moved, Measure, Generous, Readable;
    if Negotiating(y.i) { InitiatorShape(c, y); GenerousPipes(y.i, y.ri); }
    if Negotiating(y.r) { ResponderShape(c, y); GenerousPipes(y.r, y.ir); }
    if y.i.neg != Done && !Hearing(y.i.neg) {
      l := StepInitiator(Generous(y.i, y.ri));
      GenerousSends(y.i, y.ri);
      SendingAccounts(y.i, l.io);
      InitiatorSteps(c, y, l.io);
    } else if y.r.neg != Done && !Listening(y.r.neg) {
      l := StepResponder(Generous(y.r, y.ir));
      GenerousSends(y.r, y.ir);
      ReplyingAccounts(c.registry, y.r, l.io);
      ResponderSteps(c, y, l.io);
    } else if Hearing(y.i.neg) && Readable(y.i, y.ri) {
      l := StepInitiator(Generous(y.i, y.ri));
      InitiatorReads(c, y);
      InitiatorSteps(c, y, l.io);
    } else if Listening(y.r.neg) && Readable(y.r, y.ir) {
      l := StepResponder(Generous(y.r, y.ir));
      ResponderReads(c, y);
      ResponderSteps(c, y, l.io);
    } else {
      NotStuck(c, y);
      assert false;
    }
  }

  lemma GenerousSends(s: Stream, pipe: seq<byte>)
    requires s.Valid()
    ensures Generous(s, pipe).write == Accepts(Frame.MAX_ENCODED) && Obeys(s, Generous(s, pipe).read)
  {
  }

  /** A step with a generous transport. */
  predicate Eager(y: System, l: Label) {
    match l
    case StepInitiator(io) => y.i.Valid() && io == Generous(y.i, y.ri)
    case StepResponder(io) => y.r.Valid() && io == Generous(y.r, y.ir)
    case _ => false
  }

  lemma CanMove(c: Config, labels: seq<Label>, y: System) returns (l: Label)
    requires Proposable(c) && Run(c, labels) == Some(y)
    requires y.i.neg != Failed && y.r.neg != Failed && !(y.i.neg == Done && y.r.neg == Done)
    ensures Enabled(y, l) && Eager(y, l) && Measure(c, Apply(c, y, l)) < Measure(c, y)
  {
    hide Run, Inv, Measure, Apply, Enabled, Eager;
    RunKeeps(c, labels);
    l := SomeMoves(c, y);
  }

  // --------------------------------------------------------------------------- the end

  predicate Ended(y: System) {
    (y.i.neg == Done && y.r.neg == Done) || y.i.neg == Failed || y.r.neg == Failed
  }

  lemma RunMore(c: Config, labels: seq<Label>, y: System, l: Label)
    requires Run(c, labels) == Some(y) && Enabled(y, l)
    ensures Run(c, labels + [l]) == Some(Apply(c, y, l))
  {
    hide Apply, Enabled;
    assert (labels + [l])[..|labels|] == labels;
  }

  /** All of `more` are steps with a generous transport. */
  ghost predicate EagerRun(c: Config, labels: seq<Label>, more: seq<Label>)
    decreases |more|
  {
    more == [] ||
    (Run(c, labels).Some? && Eager(Run(c, labels).value, more[0]) && EagerRun(c, labels + [more[0]], more[1..]))
  }

  /** From every state that a run can reach, eager steps bring the negotiation to its end, no more than the measure. */
  lemma {:induction false} Completes(c: Config, labels: seq<Label>, y: System) returns (more: seq<Label>, z: System)
    requires Proposable(c) && Run(c, labels) == Some(y)
    ensures Run(c, labels + more) == Some(z) && Ended(z) && |more| <= Measure(c, y) && EagerRun(c, labels, more)
    ensures Supported(c) && y.i.neg != Failed && y.r.neg != Failed ==> z.i.neg != Failed && z.r.neg != Failed
    decreases Measure(c, y)
  {
    hide Run, Measure, Apply, Enabled, Eager, Proposable, Supported;
    if Ended(y) {
      more, z := [], y;
      assert labels + [] == labels;
    } else {
      var l := CanMove(c, labels, y);
      RunMore(c, labels, y, l);
      EagerIsBlameless(y, l);
      if Supported(c) { BlamelessSucceeds(c, labels, y, l); }
      var rest;
      rest, z := Completes(c, labels + [l], Apply(c, y, l));
      more := [l] + rest;
      assert labels + [l] + rest == labels + more;
      assert more[0] == l && more[1..] == rest;
    }
  }

  /** The responder has one of the proposals, and the first is not the word "ls". */
  predicate Supported(c: Config) {
    Choice(c).Some? && c.protocol != LS
  }

  /** A finished initiator had a proposal that the responder has; it did not take a listing for an answer. */
  lemma DoneIsSupported(c: Config, y: System)
    requires Inv(c, y) && Proposable(c) && y.i.neg == Done
    ensures Supported(c)
  {
    hide Wire, Unread, Due, Delivered, Stream.Unsent, Frame.Encode, LsPayload;
    DoneIsBound(c, y);
    LsPayloadEndsInNewline(c.registry);
  }

  /** Nothing outside the negotiation spoils it at this label: no transport error, no refusal, no abort. */
  predicate Blameless(l: Label) {
    match l
    case StepInitiator(io) => io.write != WriteError && io.read != ReadError && io.onOpen
    case StepResponder(io) => io.write != WriteError && io.read != ReadError && io.onOpen
    case AbortInitiator => false
    case AbortResponder => false
    case _ => true
  }

  lemma FailsByStatus(registry: seq<Id>, s: Stream, io: Io)
    requires s.Valid() && Obeys(s, io.read) && Negotiating(s)
    ensures
      var o := Step(registry, s, io);
      o.stream.neg == Failed ==> o.status.Failure?
  {
    hide ReadMessage, SendPrepared, Frame.Encode, Frame.Encodes;
    NegKept(s, io);
    SendKeepsNeg(Prepare(s, MS), io.write);
    if s.protocol.Some? { SendKeepsNeg(Prepare(s, s.protocol.value), io.write); }
  }

  lemma NegKept(s: Stream, io: Io)
    requires s.Valid() && Obeys(s, io.read)
    ensures ReadMessage(s, io.read).stream.neg == s.neg && SendPrepared(s, io.write).stream.neg == s.neg
  {
  }

  lemma SendKeepsNeg(s: Stream, w: WriteAnswer)
    requires s.Valid()
    ensures SendPrepared(s, w).stream.neg == s.neg
  {
  }

  /** With a common protocol nothing fails of itself. */
  lemma BlamelessSucceeds(c: Config, labels: seq<Label>, y: System, l: Label)
    requires Proposable(c) && Run(c, labels) == Some(y) && Supported(c)
    requires Enabled(y, l) && Blameless(l) && y.i.neg != Failed && y.r.neg != Failed
    ensures Apply(c, y, l).i.neg != Failed && Apply(c, y, l).r.neg != Failed
  {
    hide Run, Step, Proposable;
    match l
    case StepInitiator(io) =>
      FailureHasCause(c, labels, y, io);
      StepObeys(y, l);
      FailsByStatus([], y.i, io);
    case StepResponder(io) =>
      FailureHasCause(c, labels, y, io);
      StepObeys(y, l);
      FailsByStatus(c.registry, y.r, io);
    case _ =>
  }

  lemma EagerIsBlameless(y: System, l: Label)
    requires Eager(y, l)
    ensures Blameless(l)
  {
  }

  /**
    Negotiation gets there. From every reachable state in which neither end has failed, eager steps (at most as many
    as the measure says) end with both ends done on the first of the proposals that the responder has, or with a
    failure when it has none or the first proposal is "ls".
  */
  lemma Terminates(c: Config, labels: seq<Label>, y: System) returns (more: seq<Label>, z: System)
    requires Proposable(c) && Run(c, labels) == Some(y) && y.i.neg != Failed && y.r.neg != Failed
    ensures Run(c, labels + more) == Some(z) && |more| <= Measure(c, y) && EagerRun(c, labels, more)
    ensures if Supported(c) then z.i.neg == Done && z.r.neg == Done && z.i.protocol == z.r.protocol == Choice(c)
            else z.i.neg == Failed || z.r.neg == Failed
  {
    hide Run, Measure, EagerRun, Proposable, Inv;
    more, z := Completes(c, labels, y);
    Agreement(c, labels + more, z);
    RunKeeps(c, labels + more);
    if z.i.neg == Done { DoneIsSupported(c, z); }
  }
}
