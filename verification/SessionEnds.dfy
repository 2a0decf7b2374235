/**
  How negotiations between two hosts end, whatever the schedule: only so many steps of any run change anything, every
  fair run comes to an end, and which end that is depends on the configuration alone.
*/
module SessionEnds {
  import opened Bytes
  import opened Negotiation
  import opened Session
  import opened SessionProofs
  import opened SessionProgress
  import Frame
  import Misunderstanding

  // ------------------------------------------------------------------ bounded work

  /** No negotiation takes more steps that do something. */
  const BOUND: nat := 12 * WEIGHT + 2 * (1 + Frame.MAX_ENCODED)

  lemma AtFirst(c: Config)
    ensures Measure(c, Init(c)) <= BOUND
  {
  }

  /** The number of negotiation steps in a run that changed anything. */
  ghost function Changes(c: Config, labels: seq<Label>): nat
    decreases |labels|
  {
    if labels == [] then 0
    else
      var k := |labels| - 1;
      Changes(c, labels[..k]) + if IsStep(labels[k]) && Run(c, labels) != Run(c, labels[..k]) then 1 else 0
  }

  lemma LastStep(c: Config, labels: seq<Label>, z: System) returns (y: System)
    requires labels != [] && Run(c, labels) == Some(z)
    ensures
      var l := labels[|labels| - 1];
      Run(c, labels[..|labels| - 1]) == Some(y) && Enabled(y, l) && z == Apply(c, y, l)
  {
    hide Apply, Enabled;
    y := Run(c, labels[..|labels| - 1]).value;
  }

  /** In every run, however long, at most so many steps change anything; the rest find nothing to do. */
  lemma {:induction false} BoundedWork(c: Config, labels: seq<Label>, z: System)
    requires Proposable(c) && Run(c, labels) == Some(z)
    ensures Changes(c, labels) + Measure(c, z) <= BOUND
    decreases |labels|
  {
    hide Apply, Enabled, Measure, Proposable;
    if labels == [] {
      AtFirst(c);
    } else {
      var k := |labels| - 1;
      var y := LastStep(c, labels, z);
      BoundedWork(c, labels[..k], y);
      EveryStepCounts(c, labels[..k], y, labels[k]);
    }
  }

  // -------------------------------------------------------------------- the ends stay

  lemma EndedStays(c: Config, y: System, l: Label)
    requires Enabled(y, l) && Ended(y)
    ensures Ended(Apply(c, y, l))
  {
    hide Step;
  }

  /** Every prefix of a run is a run. */
  lemma {:induction false} Prefix(c: Config, labels: seq<Label>, k: nat)
    requires Run(c, labels).Some? && k <= |labels|
    ensures Run(c, labels[..k]).Some?
    decreases |labels|
  {
    if k == |labels| {
      assert labels[..k] == labels;
    } else {
      var y := LastStep(c, labels, Run(c, labels).value);
      Prefix(c, labels[..|labels| - 1], k);
      assert labels[..|labels| - 1][..k] == labels[..k];
    }
  }

  /** The state before label k. */
  ghost function At(c: Config, labels: seq<Label>, k: nat): (y: System)
    requires Run(c, labels).Some? && k <= |labels|
    ensures Run(c, labels[..k]) == Some(y)
  {
    Prefix(c, labels, k);
    Run(c, labels[..k]).value
  }

  lemma AtStep(c: Config, labels: seq<Label>, k: nat)
    requires Run(c, labels).Some? && k < |labels|
    ensures Enabled(At(c, labels, k), labels[k])
    ensures At(c, labels, k + 1) == Apply(c, At(c, labels, k), labels[k])
  {
    hide Apply, Enabled;
    var z := At(c, labels, k + 1);
    var y := LastStep(c, labels[..k + 1], z);
    assert labels[..k + 1][..k] == labels[..k];
  }

  /** Along a run the measure only falls, and an end is not undone. */
  lemma {:induction false} Falls(c: Config, labels: seq<Label>, a: nat, b: nat)
    requires Proposable(c) && Run(c, labels).Some? && a <= b <= |labels|
    ensures Measure(c, At(c, labels, b)) <= Measure(c, At(c, labels, a))
    ensures Ended(At(c, labels, a)) ==> Ended(At(c, labels, b))
    decreases b
  {
    hide Run, Apply, Enabled, Measure, Proposable, Ended, At;
    if a < b {
      Falls(c, labels, a, b - 1);
      AtStep(c, labels, b - 1);
      AtIs(c, labels, b - 1);
      EveryStepCounts(c, labels[..b - 1], At(c, labels, b - 1), labels[b - 1]);
      if Ended(At(c, labels, b - 1)) { EndedStays(c, At(c, labels, b - 1), labels[b - 1]); }
    }
  }

  lemma AtIs(c: Config, labels: seq<Label>, k: nat)
    requires Run(c, labels).Some? && k <= |labels|
    ensures Run(c, labels[..k]) == Some(At(c, labels, k))
    ensures k == 0 ==> At(c, labels, k) == Init(c)
    ensures k == |labels| ==> Some(At(c, labels, k)) == Run(c, labels)
  {
    if k == |labels| { assert labels[..k] == labels; }
  }

  // ------------------------------------------------------------------------ fair runs

  /** The step of one end with a transport that takes everything and delivers what is there. */
  function Offer(y: System, initiator: bool): Label
    requires y.i.Valid() && y.r.Valid()
  {
    if initiator then StepInitiator(Generous(y.i, y.ri)) else StepResponder(Generous(y.r, y.ir))
  }

  /** The end has its chance at label k: it has ended already, or takes its step unhindered. */
  ghost predicate Chance(c: Config, labels: seq<Label>, k: nat, initiator: bool)
    requires Run(c, labels).Some? && k < |labels|
  {
    var y := At(c, labels, k);
    || !Negotiating(if initiator then y.i else y.r)
    || (y.i.Valid() && y.r.Valid() && labels[k] == Offer(y, initiator))
  }

  /** Both ends have their chance among the n labels from a. */
  ghost predicate Served(c: Config, labels: seq<Label>, a: nat, n: nat)
    requires Run(c, labels).Some? && a + n <= |labels|
  {
    && (exists j: nat :: a <= j < a + n && Chance(c, labels, j, true))
    && (exists j: nat :: a <= j < a + n && Chance(c, labels, j, false))
  }

  /** Nobody has to wait for more than n labels. */
  ghost predicate Fair(c: Config, labels: seq<Label>, n: nat)
    requires Run(c, labels).Some?
  {
    forall a: nat :: a + n <= |labels| ==> Served(c, labels, a, n)
  }

  /** The end would use up the measure, given the chance. */
  predicate Able(c: Config, y: System, initiator: bool) {
    && y.i.Valid() && y.r.Valid() && Enabled(y, Offer(y, initiator))
    && Measure(c, Apply(c, y, Offer(y, initiator))) < Measure(c, y)
  }

  /** Unless the negotiation has ended, one of the ends is able. */
  lemma SomeAble(c: Config, labels: seq<Label>, y: System)
    requires Proposable(c) && Run(c, labels) == Some(y) && !Ended(y)
    ensures Able(c, y, true) || Able(c, y, false)
  {
    hide Run, Measure, Apply, Inv, Generous, Proposable;
    RunKeeps(c, labels);
    BothValid(c, y);
    var l := CanMove(c, labels, y);
    assert l == Offer(y, l.StepInitiator?);
  }

  lemma BothValid(c: Config, y: System)
    requires Inv(c, y)
    ensures y.i.Valid() && y.r.Valid()
  {
    hide Wire, Requests, Replies, Declined, Bound, Stream.Valid;
  }

  /** A finished initiator leaves the responder finished or failed. */
  lemma DoneEnds(c: Config, y: System)
    requires Inv(c, y) && Proposable(c) && y.i.neg == Done
    ensures Ended(y)
  {
    hide Unread, Due, Delivered, Stream.Unsent, Requests, Replies, Declined, InitiatorOk, Stream.Valid, Supports;
    DoneIsBound(c, y);
    if Pending(y.r) && y.r.neg != Done {
      NoneDue(Replies(c), y.gotI);
      NoData(y.appR, y.handedI);
      NothingLeft(y.i.inFrame, y.ri, y.r.Unsent());
      PendingUnsent(y.r);
    }
  }

  lemma NothingLeft(inFrame: seq<byte>, pipe: seq<byte>, unsent: seq<byte>)
    requires Wire(inFrame, pipe, unsent, [], [])
    ensures unsent == []
  {
    assert |inFrame + pipe + unsent| == |inFrame| + |pipe| + |unsent|;
  }

  lemma PendingUnsent(s: Stream)
    requires Pending(s)
    ensures s.Unsent() != []
  {
  }

  /** An able end stays able until the measure falls. */
  lemma AbleStays(c: Config, labels: seq<Label>, k: nat, initiator: bool)
    requires Proposable(c) && Run(c, labels).Some? && k < |labels|
    requires Able(c, At(c, labels, k), initiator) && !Ended(At(c, labels, k + 1))
    ensures
      || Measure(c, At(c, labels, k + 1)) < Measure(c, At(c, labels, k))
      || Able(c, At(c, labels, k + 1), initiator)
  {
    hide Run, Measure, Inv, Generous, Proposable, At, Step, StreamRead;
    var y, z, l := At(c, labels, k), At(c, labels, k + 1), labels[k];
    AtIs(c, labels, k);
    AtIs(c, labels, k + 1);
    AtStep(c, labels, k);
    EveryStepCounts(c, labels[..k], y, l);
    if !IsStep(l) {
      RunKeeps(c, labels[..k]);
      if y.i.neg == Done { Falls(c, labels, k, k + 1); DoneEnds(c, y); }
      SomeAble(c, labels[..k + 1], z);
    }
  }

  lemma {:induction false} AbleAlong(c: Config, labels: seq<Label>, a: nat, k: nat, initiator: bool)
    requires Proposable(c) && Run(c, labels).Some? && a <= k <= |labels|
    requires Able(c, At(c, labels, a), initiator) && !Ended(At(c, labels, k))
    ensures Measure(c, At(c, labels, k)) < Measure(c, At(c, labels, a)) || Able(c, At(c, labels, k), initiator)
    decreases k
  {
    hide Run, Measure, Apply, Enabled, Able, At, Ended, Proposable;
    if a < k {
      Falls(c, labels, k - 1, k);
      AbleAlong(c, labels, a, k - 1, initiator);
      Falls(c, labels, a, k - 1);
      if Able(c, At(c, labels, k - 1), initiator) { AbleStays(c, labels, k - 1, initiator); }
    }
  }

  /** A chance that an able end has is used. */
  lemma ChanceTaken(c: Config, labels: seq<Label>, j: nat, initiator: bool)
    requires Proposable(c) && Run(c, labels).Some? && j < |labels|
    requires Chance(c, labels, j, initiator) && Able(c, At(c, labels, j), initiator)
    ensures Measure(c, At(c, labels, j + 1)) < Measure(c, At(c, labels, j))
  {
    hide Run, Measure, Apply, At, Generous, Proposable;
    AtStep(c, labels, j);
  }

  /** Where both ends have their chance, the measure falls or the negotiation ends. */
  lemma WindowCounts(c: Config, labels: seq<Label>, a: nat, n: nat)
    requires Proposable(c) && Run(c, labels).Some? && a + n <= |labels| && Served(c, labels, a, n)
    requires !Ended(At(c, labels, a + n))
    ensures Measure(c, At(c, labels, a + n)) < Measure(c, At(c, labels, a))
  {
    hide Run, Measure, Able, At, Ended, Proposable, Chance;
    Falls(c, labels, a, a + n);
    AtIs(c, labels, a);
    SomeAble(c, labels[..a], At(c, labels, a));
    var initiator := Able(c, At(c, labels, a), true);
    var j: nat :| a <= j < a + n && Chance(c, labels, j, initiator);
    Falls(c, labels, j, a + n);
    AbleAlong(c, labels, a, j, initiator);
    Falls(c, labels, a, j);
    Falls(c, labels, j + 1, a + n);
    if Able(c, At(c, labels, j), initiator) { ChanceTaken(c, labels, j, initiator); }
  }

  lemma {:induction false} Windows(c: Config, labels: seq<Label>, n: nat, m: nat)
    requires Proposable(c) && Run(c, labels).Some? && Fair(c, labels, n) && m * n <= |labels|
    requires !Ended(At(c, labels, m * n))
    ensures Measure(c, At(c, labels, m * n)) + m <= BOUND
    decreases m
  {
    hide Run, Measure, At, Ended, Proposable, Served;
    if m == 0 {
      AtIs(c, labels, 0);
      AtFirst(c);
    } else {
      var a := (m - 1) * n;
      assert m * n == a + n;
      Falls(c, labels, a, a + n);
      Windows(c, labels, n, m - 1);
      WindowCounts(c, labels, a, n);
    }
  }

  // ------------------------------------------------------------------------- theorems

  predicate Agreed(c: Config, y: System) {
    y.i.neg == Done && y.r.neg == Done && y.i.protocol.Some? && y.i.protocol == y.r.protocol
  }

  /** Nothing outside the negotiation spoils the run. */
  predicate AllBlameless(labels: seq<Label>) {
    forall k :: 0 <= k < |labels| ==> Blameless(labels[k])
  }

  lemma {:induction false} NoneFails(c: Config, labels: seq<Label>, z: System)
    requires Proposable(c) && Supported(c) && Run(c, labels) == Some(z) && AllBlameless(labels)
    ensures z.i.neg != Failed && z.r.neg != Failed
    decreases |labels|
  {
    hide Apply, Enabled, Proposable, Supported, Blameless;
    if labels != [] {
      var k := |labels| - 1;
      var y := LastStep(c, labels, z);
      NoneFails(c, labels[..k], y);
      BlamelessSucceeds(c, labels[..k], y, labels[k]);
    }
  }

  /** An end reached is agreement only if the configuration supports it. */
  lemma AgreedIsSupported(c: Config, labels: seq<Label>, z: System)
    requires Proposable(c) && Run(c, labels) == Some(z) && z.i.neg == Done
    ensures Supported(c)
  {
    hide Run, Inv, Proposable, Supported;
    RunKeeps(c, labels);
    DoneIsSupported(c, z);
  }

  /**
    Every fair run ends. Whatever else happens in it (other chunks, application data, idle steps), a run in which
    nobody waits for more than n labels for a chance has come to its end after n * BOUND of them: with both ends done
    on the first of the proposals that the responder has, when the configuration supports one and nothing outside
    spoils it, and with a failure otherwise.
  */
  lemma FairRunsEnd(c: Config, labels: seq<Label>, n: nat, z: System)
    requires Proposable(c) && Run(c, labels) == Some(z) && Fair(c, labels, n) && |labels| >= BOUND * n
    ensures Ended(z)
    ensures !Supported(c) ==> z.i.neg == Failed || z.r.neg == Failed
    ensures Supported(c) && AllBlameless(labels) ==> Agreed(c, z) && z.i.protocol == Choice(c)
  {
    hide Run, Measure, At, Able, Proposable, Served, Supported, Blameless;
    var p := BOUND * n;
    if !Ended(At(c, labels, p)) {
      Windows(c, labels, n, BOUND);
      AtIs(c, labels, p);
      SomeAble(c, labels[..p], At(c, labels, p));
      AbleHasMore(c, At(c, labels, p));
      assert false;
    }
    Falls(c, labels, p, |labels|);
    AtIs(c, labels, |labels|);
    if z.i.neg == Done { AgreedIsSupported(c, labels, z); }
    Agreement(c, labels, z);
    if Supported(c) && AllBlameless(labels) { NoneFails(c, labels, z); }
  }

  lemma AbleHasMore(c: Config, y: System)
    requires Able(c, y, true) || Able(c, y, false)
    ensures Measure(c, y) > 0
  {
    hide Measure, Apply, Enabled, Offer;
  }

  // ------------------------------------------------------------ the ends as host records

  /** The end stands where the record does; a finished end may have handed out what was left in the buffer. */
  predicate SameEnd(t: Stream, s: Stream) {
    (Negotiating(s) ==> s == t) && (s.neg == Done ==> s == t.(inFrame := s.inFrame))
  }

  lemma OwnRegistry(own: seq<Id>, s: Stream, io: Io)
    requires s.Valid() && Obeys(s, io.read) && s.outbound
    ensures Step(own, s, io) == Step([], s, io)
  {
    hide OutboundStep, Consumed;
  }

  lemma AfterMore(registry: seq<Id>, s: Stream, ios: seq<Io>, t: Stream, io: Io)
    requires s.Valid() && After(registry, s, ios) == Some(t) && Negotiating(t) && Obeys(t, io.read)
    ensures After(registry, s, ios + [io]) == Some(Step(registry, t, io).stream)
  {
    hide Step;
    assert (ios + [io])[..|ios|] == ios;
  }

  /**
    The ends of a session are records of two hosts: each is what its own steps make of a fresh record, which is what a
    host keeps in the slot of a negotiating stream.
  */
  lemma {:induction false} EndsAreRecords(c: Config, own: seq<Id>, labels: seq<Label>, z: System)
    returns (ios: seq<Io>, replies: seq<Io>)
    requires Run(c, labels) == Some(z)
    ensures
      var i := After(own, NewOutbound(c.protocol, c.fallback), ios);
      i.Some? && SameEnd(i.value, z.i)
    ensures
      var r := After(c.registry, NewInbound(), replies);
      r.Some? && SameEnd(r.value, z.r)
    decreases |labels|
  {
    hide Step;
    ios, replies := [], [];
    if labels != [] {
      var k := |labels| - 1;
      var y := LastStep(c, labels, z);
      ios, replies := EndsAreRecords(c, own, labels[..k], y);
      hide Run, After;
      match labels[k]
      case StepInitiator(io) =>
        OwnRegistry(own, y.i, io);
        AfterMore(own, NewOutbound(c.protocol, c.fallback), ios, y.i, io);
        ios := ios + [io];
      case StepResponder(io) =>
        AfterMore(c.registry, NewInbound(), replies, y.r, io);
        replies := replies + [io];
      case _ =>
    }
  }

  // ------------------------------------------------------------------ exactly when

  /** What holds of the protocol ids in every run of every configuration. */
  predicate Known(c: Config, y: System) {
    && y.i.outbound && !y.r.outbound && y.i.Valid() && y.r.Valid()
    && (y.r.protocol.Some? ==> y.r.protocol.value in c.registry)
    && (y.i.protocol == Some(c.protocol) || (c.protocol != NA && y.i.protocol == c.fallback))
    && (y.i.fallback == None || y.i.fallback == c.fallback)
  }

  /** A write changes no ids. */
  lemma SendKeepsIds(s: Stream, w: WriteAnswer, next: NegState)
    requires s.Valid()
    ensures
      && SendPrepared(s, w).stream.protocol == FlushTo(s, w, next).stream.protocol == s.protocol
      && SendPrepared(s, w).stream.fallback == FlushTo(s, w, next).stream.fallback == s.fallback
  {
  }

  /** What an initiator's step may do to its ids: the fallback takes the place of a declined proposal. */
  predicate Proposes(s: Stream, t: Stream) {
    && (t.protocol == s.protocol || (t.protocol == s.fallback && s.fallback.Some? && s.protocol != Some(NA)))
    && (t.fallback == None || t.fallback == s.fallback)
  }

  lemma PreparedKeepsIds(s: Stream, p: Frame.Payload, w: WriteAnswer, next: NegState)
    requires s.Valid()
    ensures
      var t := SendFrame(s, p, w, next).stream;
      t.protocol == s.protocol && t.fallback == s.fallback
  {
    hide FlushTo, SendPrepared, Frame.Encode;
    SendKeepsIds(if s.outFrame == [] then Prepare(s, p) else s, w, next);
  }

  lemma HeardProposes(s: Stream, o: Out, onOpen: bool)
    requires o.stream.Valid() && o.message.Some? && o.stream == s.(inFrame := o.stream.inFrame)
    ensures Proposes(s, HearMs(o).stream) && Proposes(s, HearProtocol(s, o, onOpen).stream)
  {
  }

  lemma InitiatorKnown(s: Stream, io: Io)
    requires s.Valid() && Obeys(s, io.read) && s.outbound
    ensures Proposes(s, Step([], s, io).stream)
  {
    hide SendFrame, ReadMessage, HearMs, HearProtocol, Consumed, Stream.Valid;
    PreparedKeepsIds(s, MS, io.write, OutSendProtocol);
    if s.protocol.Some? {
      PreparedKeepsIds(s, s.protocol.value, io.write, if s.ready then OutReadProtocol else OutReadMs);
    }
    var o := ReadMessage(s, io.read);
    if o.message.Some? { HeardProposes(s, o, io.onOpen); }
  }

  /** What a responder's step may do to its id: it binds a registered one. */
  predicate Binds(registry: seq<Id>, s: Stream, t: Stream) {
    t.protocol == s.protocol || (t.protocol.Some? && t.protocol.value in registry)
  }

  lemma JudgedBinds(registry: seq<Id>, s: Stream, o: Out, request: Frame.Payload)
    requires o.stream.Valid() && o.stream == s.(inFrame := o.stream.inFrame)
    ensures Binds(registry, s, Judge(registry, o, request).stream)
    ensures Answer(o, MS, InSendProtocol).stream.protocol == s.protocol
  {
    hide Frame.Encode, LsPayload;
  }

  lemma ResponderKnown(registry: seq<Id>, s: Stream, io: Io)
    requires s.Valid() && Obeys(s, io.read) && !s.outbound
    ensures Binds(registry, s, Step(registry, s, io).stream)
  {
    hide FlushTo, ReadMessage, SendPrepared, Judge, Answer, Consumed, Stream.Valid;
    SendKeepsIds(s, io.write, InReadProtocol);
    var o := ReadMessage(s, io.read);
    if o.message.Some? { JudgedBinds(registry, s, o, o.message.value); }
  }

  lemma {:induction false} RunKnown(c: Config, labels: seq<Label>, z: System)
    requires Run(c, labels) == Some(z)
    ensures Known(c, z)
    decreases |labels|
  {
    hide Step;
    if labels != [] {
      var k := |labels| - 1;
      var y := LastStep(c, labels, z);
      RunKnown(c, labels[..k], y);
      match labels[k]
      case StepInitiator(io) => InitiatorKnown(y.i, io);
      case StepResponder(io) => ResponderKnown(c.registry, y.r, io);
      case _ =>
    }
  }

  /**
    Two hosts can come to an agreement exactly when the responder has one of the proposals, the first is not "ls", and
    no unregistered "na" stands where it is proposed; for every configuration.
  */
  lemma SuccessExactly(c: Config)
    ensures Supported(c) && Proposable(c) <==> exists y :: Misunderstanding.Reaches(c, y) && Agreed(c, y)
  {
    hide Run;
    if Supported(c) && Proposable(c) {
      StartsUp(c);
      var more, z := Terminates(c, [], Init(c));
      assert [] + more == more;
      assert Misunderstanding.Reaches(c, z) && Agreed(c, z);
    }
    forall y | Misunderstanding.Reaches(c, y) && Agreed(c, y)
      ensures Supported(c) && Proposable(c)
    {
      var labels :| Run(c, labels) == Some(y);
      RunKnown(c, labels, y);
      AgreedIsSupported(c, labels, y);
    }
  }

  lemma StartsUp(c: Config)
    ensures Run(c, []) == Some(Init(c)) && Init(c).i.neg != Failed && Init(c).r.neg != Failed
  {
  }

  /**
    A common protocol is not enough: with "ls" proposed first, every fair run fails although the responder has the
    fallback and would have been asked for it had the first proposal been declined.
  */
  lemma ListingMisread(x: Id, registry: seq<Id>, labels: seq<Label>, n: nat, z: System)
    requires x != LS && x in registry
    ensures
      var c := Config(LS, Some(x), registry);
      && Choice(c) == Some(x) && !Supported(c)
      && (Run(c, labels) == Some(z) ==> z.i.neg != Done)
      && (Run(c, labels) == Some(z) && Fair(c, labels, n) && |labels| >= BOUND * n ==>
            z.i.neg == Failed || z.r.neg == Failed)
  {
    hide Run, Fair;
    var c := Config(LS, Some(x), registry);
    if Run(c, labels) == Some(z) {
      if z.i.neg == Done { AgreedIsSupported(c, labels, z); }
      if Fair(c, labels, n) && |labels| >= BOUND * n { FairRunsEnd(c, labels, n, z); }
    }
  }
}
