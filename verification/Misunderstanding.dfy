/**
  When "na" is offered as a protocol the responder does not have, its refusal reads as an acceptance.
  The run below exhibits it for every such configuration, which makes `Session.Proposable` exact.
*/
module Misunderstanding {
  import opened Bytes
  import opened Negotiation
  import opened Session
  import SessionProofs
  import Frame

  const ALL: nat := Frame.MAX_ENCODED

  function Writing(): Label { StepInitiator(Io(Accepts(ALL), ReadWouldBlock, true)) }
  function Replying(): Label { StepResponder(Io(Accepts(ALL), ReadWouldBlock, true)) }
  function Hearing(p: Frame.Payload): Label {
    StepInitiator(Io(WriteWouldBlock, Data(Frame.Encode(p), false), true))
  }
  function Listening(p: Frame.Payload): Label {
    StepResponder(Io(WriteWouldBlock, Data(Frame.Encode(p), false), true))
  }

  ghost predicate Reaches(c: Config, y: System) {
    exists labels :: Run(c, labels) == Some(y)
  }

  lemma Extend(c: Config, y: System, l: Label, z: System)
    requires Reaches(c, y) && Enabled(y, l) && Apply(c, y, l) == z
    ensures Reaches(c, z)
  {
    var labels :| Run(c, labels) == Some(y);
    assert (labels + [l])[..|labels|] == labels;
    assert Run(c, labels + [l]) == Some(z);
  }

  /** A write that takes the whole pending frame. */
  lemma WriteAll(s: Stream)
    requires s.Valid() && s.outPos == 0 && s.outFrame != []
    ensures SendPrepared(s, Accepts(ALL)) == Out(s.(outFrame := []), s.outFrame, [], None, Continue, true)
  {
    assert s.outFrame[0..|s.outFrame|] == s.outFrame;
  }

  /** A read that brings exactly one frame. */
  lemma ReadOne(s: Stream, p: Frame.Payload)
    requires s.Valid() && s.inFrame == []
    ensures |Frame.Encode(p)| <= ALL
    ensures ReadMessage(s, Data(Frame.Encode(p), false)) == Out(s, [], Frame.Encode(p), Some(p), Continue, true)
  {
    hide Frame.Encode, Frame.Decode;
    Frame.EncodedSize(p);
    Frame.RoundTrip(p, []);
    SessionProofs.EmptyIsTruncated();
    var f := Frame.Encode(p);
    assert f + [] == f && [] + f == f && f[|f|..] == [];
  }

  lemma InitiatorWrites(c: Config, y: System, p: Frame.Payload, next: NegState)
    requires Reaches(c, y) && y.i.Valid() && y.i.outbound && y.i.outFrame == [] && y.i.outPos == 0
    requires y.i.protocol.Some?
    requires
      || (y.i.neg == OutSendMs && p == MS && next == OutSendProtocol)
      || (y.i.neg == OutSendProtocol && p == y.i.protocol.value && next == if y.i.ready then OutReadProtocol
            else OutReadMs)
    ensures Reaches(c, y.(i := y.i.(neg := next), ir := y.ir + Frame.Encode(p), sentI := y.sentI + 1))
  {
    hide Frame.Encode;
    Frame.EncodedSize(p);
    WriteAll(Prepare(y.i, p));
    var z := y.(i := y.i.(neg := next), ir := y.ir + Frame.Encode(p), sentI := y.sentI + 1);
    assert Drop(y.ri, 0) == y.ri;
    assert Step([], y.i, Io(Accepts(ALL), ReadWouldBlock, true)) == Out(z.i, Frame.Encode(p), [], None, Continue, true);
    Extend(c, y, Writing(), z);
  }

  lemma ResponderWrites(c: Config, y: System)
    requires Reaches(c, y) && y.r.Valid() && !y.r.outbound && y.r.outPos == 0 && y.r.outFrame != []
    requires (y.r.neg == InSendProtocol && y.r.protocol.None?) || y.r.neg == InSendNa
    ensures Reaches(c, y.(r := y.r.(neg := InReadProtocol, outFrame := []), ri := y.ri + y.r.outFrame))
  {
    WriteAll(y.r);
    var z := y.(r := y.r.(neg := InReadProtocol, outFrame := []), ri := y.ri + y.r.outFrame);
    assert Drop(y.ir, 0) == y.ir;
    assert Step(c.registry, y.r, Io(Accepts(ALL), ReadWouldBlock, true)) ==
      Out(z.r, y.r.outFrame, [], None, Continue, true);
    Extend(c, y, Replying(), z);
  }

  /** What one request makes a listening responder prepare. */
  predicate Judges(c: Config, s: Stream, p: Frame.Payload, answer: Frame.Payload, next: NegState) {
    || (s.neg == InReadMs && p == MS == answer && next == InSendProtocol)
    || (s.neg == InReadProtocol && p != LS && p !in c.registry && answer == NA && next == InSendNa)
  }

  lemma JudgeStep(c: Config, s: Stream, p: Frame.Payload, answer: Frame.Payload, next: NegState)
    requires s.Valid() && !s.outbound && s.inFrame == [] && Judges(c, s, p, answer, next)
    ensures Obeys(s, Data(Frame.Encode(p), false))
    ensures Step(c.registry, s, Io(WriteWouldBlock, Data(Frame.Encode(p), false), true))
         == Out(s.(neg := next, outFrame := Frame.Encode(answer), outPos := 0),
                [], Frame.Encode(p), Some(p), Continue, true)
  {
    hide Frame.Encode, ReadMessage, Step;
    ReadOne(s, p);
    SessionProofs.InboundReadStep(c, s, Io(WriteWouldBlock, Data(Frame.Encode(p), false), true));
  }

  /** The responder reads one frame and prepares the answer that `Judge` or the opening gives. */
  lemma ResponderReads(c: Config, y: System, p: Frame.Payload, rest: seq<byte>, answer: Frame.Payload, next: NegState)
    requires Reaches(c, y) && y.r.Valid() && !y.r.outbound && y.r.inFrame == [] && y.r.outFrame == []
    requires y.ir == Frame.Encode(p) + rest
    requires Judges(c, y.r, p, answer, next)
    ensures
      Reaches(c, y.(r := y.r.(neg := next, outFrame := Frame.Encode(answer), outPos := 0), ir := rest,
                    sentR := y.sentR + 1, gotR := y.gotR + 1))
  {
    hide Frame.Encode, Step, Run, Reaches;
    JudgeStep(c, y.r, p, answer, next);
    Frame.EncodedSize(answer);
    assert Negotiating(y.r) && y.r.neg != OutSendMs && y.r.neg != OutSendProtocol;
    var r := y.r.(neg := next, outFrame := Frame.Encode(answer), outPos := 0);
    assert Drop(y.ir, |Frame.Encode(p)|) == rest && y.ri + [] == y.ri;
    Extend(c, y, Listening(p), y.(r := r, ir := rest, sentR := y.sentR + 1, gotR := y.gotR + 1));
  }

  /** What one answer turns a waiting initiator into. */
  predicate Turns(s: Stream, p: Frame.Payload, t: Stream) {
    && s.protocol.Some?
    && (|| (s.neg == OutReadMs && p == MS && t == s.(neg := OutReadProtocol, ready := true))
        || (s.neg == OutReadProtocol && p == s.protocol.value && t == s.(neg := Done))
        || (s.neg == OutReadProtocol && p == NA != s.protocol.value && s.fallback.Some?
            && t == s.(neg := OutSendProtocol, protocol := s.fallback, fallback := None)))
  }

  lemma HearStep(s: Stream, p: Frame.Payload, t: Stream)
    requires s.Valid() && s.outbound && s.inFrame == [] && Turns(s, p, t)
    ensures Obeys(s, Data(Frame.Encode(p), false))
    ensures
      var o := Step([], s, Io(WriteWouldBlock, Data(Frame.Encode(p), false), true));
      o.stream == t && o.wrote == [] && o.took == Frame.Encode(p) && o.message == Some(p)
  {
    hide Frame.Encode, ReadMessage, Step;
    ReadOne(s, p);
    SessionProofs.OutboundReadStep(s, Io(WriteWouldBlock, Data(Frame.Encode(p), false), true));
  }

  lemma InitiatorReads(c: Config, y: System, p: Frame.Payload, rest: seq<byte>, i: Stream)
    requires Reaches(c, y) && y.i.Valid() && y.i.outbound && y.i.inFrame == [] && y.i.outFrame == []
    requires y.ri == Frame.Encode(p) + rest && Turns(y.i, p, i)
    ensures Reaches(c, y.(i := i, ri := rest, gotI := y.gotI + 1))
  {
    hide Frame.Encode, Step, Run, Reaches;
    HearStep(y.i, p, i);
    assert Drop(y.ri, |Frame.Encode(p)|) == rest && y.ir + [] == y.ir;
    Extend(c, y, Hearing(p), y.(i := i, ri := rest, gotI := y.gotI + 1));
  }

  /** Where both ends stand when the first proposal has been declined and the refusal is on the wire. */
  function AfterRefusal(c: Config): System {
    System(
      Stream(true, OutReadProtocol, Some(c.protocol), c.fallback, true, [], [], 0),
      Stream(false, InReadProtocol, None, None, false, [], [], 0),
      [], Frame.Encode(NA), 2, 2, 2, 1, [], [], [], [])
  }

  /** Both proposals' openings are out: the initiator waits, the responder has answered the handshake. */
  function AfterHandshake(c: Config): System {
    System(
      NewOutbound(c.protocol, c.fallback).(neg := OutReadMs), NewInbound().(neg := InReadProtocol),
      Frame.Encode(c.protocol), Frame.Encode(MS), 2, 1, 1, 0, [], [], [], [])
  }

  lemma HandshakeReached(c: Config)
    ensures Reaches(c, AfterHandshake(c))
  {
    var i0, r0 := NewOutbound(c.protocol, c.fallback), NewInbound();
    var m, p := Frame.Encode(MS), Frame.Encode(c.protocol);
    Frame.EncodedSize(MS);
    assert Run(c, []) == Some(Init(c)) && Reaches(c, Init(c));
    hide Run, Frame.Encode, Reaches;
    assert [] + m == m;
    InitiatorWrites(c, Init(c), MS, OutSendProtocol);
    InitiatorWrites(c, System(i0.(neg := OutSendProtocol), r0, m, [], 1, 0, 0, 0, [], [], [], []), c.protocol,
      OutReadMs);
    var i1 := i0.(neg := OutReadMs);
    ResponderReads(c, System(i1, r0, m + p, [], 2, 0, 0, 0, [], [], [], []), MS, p, MS, InSendProtocol);
    ResponderWrites(c, System(i1, r0.(neg := InSendProtocol, outFrame := m), p, [], 2, 1, 1, 0, [], [], [], []));
  }

  lemma RefusalReached(c: Config)
    requires c.protocol != LS && c.protocol !in c.registry
    ensures Reaches(c, AfterRefusal(c))
  {
    hide Run, Frame.Encode, Reaches;
    HandshakeReached(c);
    var y := AfterHandshake(c);
    var m, p, n := Frame.Encode(MS), Frame.Encode(c.protocol), Frame.Encode(NA);
    Frame.EncodedSize(NA);
    assert p + [] == p;
    ResponderReads(c, y, c.protocol, [], NA, InSendNa);
    var y1 := y.(r := y.r.(neg := InSendNa, outFrame := n), ir := [], sentR := 2, gotR := 2);
    ResponderWrites(c, y1);
    var y2 := y1.(r := y.r, ri := m + n);
    InitiatorReads(c, y2, MS, n, y.i.(neg := OutReadProtocol, ready := true));
  }

  /** The first proposal is an unregistered "na": the refusal is taken for an acceptance. */
  lemma FirstMisread(c: Config)
    requires c.protocol == NA && NA !in c.registry
    ensures exists y :: Reaches(c, y) && y.i.neg == Done && y.r.protocol == None
  {
    hide Run, Frame.Encode;
    RefusalReached(c);
    var y := AfterRefusal(c);
    assert y.ri == Frame.Encode(NA) + [];
    InitiatorReads(c, y, NA, [], y.i.(neg := Done));
    var z := y.(i := y.i.(neg := Done), ri := [], gotI := 2);
    assert Reaches(c, z) && z.i.neg == Done && z.r.protocol == None;
  }

  /** The fallback is an unregistered "na", reached because the first proposal was declined. */
  lemma FallbackMisread(c: Config)
    requires c.protocol != NA && c.protocol != LS && c.protocol !in c.registry
    requires c.fallback == Some(NA) && NA !in c.registry
    ensures exists y :: Reaches(c, y) && y.i.neg == Done && y.r.protocol == None
  {
    hide Run, Frame.Encode;
    RefusalReached(c);
    Frame.EncodedSize(NA);
    var y, n := AfterRefusal(c), Frame.Encode(NA);
    assert y.ri == n + [] && [] + n == n && n + [] == n;
    var i1 := y.i.(neg := OutSendProtocol, protocol := Some(NA), fallback := None);
    InitiatorReads(c, y, NA, [], i1);
    InitiatorWrites(c, y.(i := i1, ri := [], gotI := 2), NA, OutReadProtocol);
    var i2 := i1.(neg := OutReadProtocol);
    ResponderReads(c, y.(i := i2, ri := [], ir := n, gotI := 2, sentI := 3), NA, [], NA, InSendNa);
    var r1 := y.r.(neg := InSendNa, outFrame := n);
    ResponderWrites(c, y.(i := i2, r := r1, ri := [], gotI := 2, sentI := 3, gotR := 3, sentR := 3));
    var z := y.(i := i2, ri := n, gotI := 2, sentI := 3, gotR := 3, sentR := 3);
    InitiatorReads(c, z, NA, [], i2.(neg := Done));
    var w := z.(i := i2.(neg := Done), ri := [], gotI := 3);
    assert Reaches(c, w) && w.i.neg == Done && w.r.protocol == None;
  }

  /** Agreement holds on every run exactly for the configurations of `Proposable`. */
  lemma AgreementExactly(c: Config)
    ensures Proposable(c) <==>
      forall y :: Reaches(c, y) && y.i.neg == Done ==> y.i.protocol.Some? && y.r.protocol == y.i.protocol
  {
    hide Run;
    if Proposable(c) {
      forall y | Reaches(c, y) && y.i.neg == Done
        ensures y.i.protocol.Some? && y.r.protocol == y.i.protocol
      {
        var labels :| Run(c, labels) == Some(y);
        SessionProofs.Agreement(c, labels, y);
      }
    } else if c.protocol == NA {
      FirstMisread(c);
    } else {
      FallbackMisread(c);
    }
  }
}
