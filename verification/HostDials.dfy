/** Dials: an accepted dial is resolved by the transport's word on its attempt, once, and by nothing else. */
module HostDials {
  import opened Bytes
  import opened Host
  import opened HostInv
  import opened HostEvents
  import opened HostRuns

  // ----------------------------------------------------------- what does not touch a dial

  /** Events may be queued, but none that carries a dial, and the dials stay as they are. */
  ghost predicate Undialed(h: Host, z: Host) {
    && z.dials == h.dials && h.events <= z.events
    && forall k :: |h.events| <= k < |z.events| ==> z.events[k].dial == None
  }

  lemma UndialedThen(h: Host, y: Host, z: Host)
    requires Undialed(h, y) && Undialed(y, z)
    ensures Undialed(h, z)
  {
    forall k | |h.events| <= k < |z.events| ensures z.events[k].dial == None {
      if k < |y.events| { assert z.events[k] == y.events[k]; }
    }
  }

  lemma PushUndialed(h: Host, e: Event)
    requires e.dial == None
    ensures Undialed(h, Push(h, e))
  {
  }

  lemma SmallUndialed(h: Host, o: nat, c: nat, a: Released)
    ensures Undialed(h, OpenRelease(h, o)) && Undialed(h, TryRecycle(h, c, a))
  {
  }

  lemma ReleaseUndialed(h: Host, i: nat, a: Released)
    ensures Undialed(h, StreamRelease(h, i, a))
  {
    hide OpenRelease, TryRecycle, Undialed;
    Same(h);
    if i < |h.streams| && h.streams[i].state != StreamFree {
      var s := h.streams[i];
      var v := ConnAt(h, s.conn);
      var h1 := SetConn(h, s.conn, v.(streamCount := Minus1(v.streamCount)));
      var h2 := if s.open.Some? && s.open.value < |h.opens| && h.opens[s.open.value].state != OpenEvented
                then OpenRelease(h1, s.open.value) else h1;
      Same(h1);
      if s.open.Some? { SmallUndialed(h1, s.open.value, 0, a); }
      StreamsOnly(h2, h2.streams[i := NO_STREAM]);
      SmallUndialed(h2.(streams := h2.streams[i := NO_STREAM]), 0, s.conn, a);
      ReleaseChain(h, h1, h2, i, s.conn, a);
    }
  }

  lemma StreamsOnly(h: Host, streams: seq<Stream>)
    ensures Undialed(h, h.(streams := streams))
  {
  }

  lemma ReleaseChain(h: Host, h1: Host, h2: Host, i: nat, c: nat, a: Released)
    requires h1 == h.(conns := h1.conns) && Undialed(h1, h2) && i < |h2.streams|
    ensures Undialed(h, TryRecycle(h2.(streams := h2.streams[i := NO_STREAM]), c, a))
  {
  }

  lemma FailOpenUndialed(h: Host, o: nat)
    requires o < |h.opens|
    ensures Undialed(h, FailOpen(h, o))
  {
  }

  lemma FailNegotiationUndialed(h: Host, i: nat, a: Released)
    requires i < |h.streams|
    ensures Undialed(h, FailNegotiation(h, i, a))
  {
    hide StreamRelease, FailOpen, Undialed;
    var s := h.streams[i];
    ReleaseUndialed(h, i, a);
    if s.outbound && s.open.Some? && s.open.value < |h.opens| {
      FailOpenUndialed(h, s.open.value);
      ReleaseUndialed(FailOpen(h, s.open.value), i, a);
      UndialedThen(h, FailOpen(h, s.open.value), FailNegotiation(h, i, a));
    }
  }

  lemma CompleteUndialed(h: Host, i: nat, x: CallbackAnswer, a: Released)
    requires i < |h.streams|
    ensures Undialed(h, CompleteNegotiation(h, i, x, a))
  {
    hide FailNegotiation, OpenRelease;
    var s := h.streams[i];
    FailNegotiationUndialed(h.(calls := h.calls + [Call(s.id, OnOpen, x != Refused)],
                               streams := h.streams[i := s.(state := StreamOpen)]), i, a);
    if s.open.Some? { OpenReleaseSame(s.open.value); }
  }

  lemma OpenReleaseSame(o: nat)
    ensures forall h: Host :: OpenRelease(h, o).dials == h.dials && OpenRelease(h, o).events == h.events
  {
  }

  lemma Same(h: Host)
    ensures Undialed(h, h)
  {
  }

  lemma {:induction false} FailWaitingUndialed(h: Host, c: nat, o: nat)
    ensures Undialed(h, FailWaiting(h, c, o))
    decreases |h.opens| - o
  {
    hide FailOpen, Undialed;
    Same(h);
    if o < |h.opens| {
      FailOpenUndialed(h, o);
      var z := if h.opens[o].state == OpenWaiting && h.opens[o].conn == c then FailOpen(h, o) else h;
      FailWaitingUndialed(z, c, o + 1);
      UndialedThen(h, z, FailWaiting(z, c, o + 1));
    }
  }

  lemma CloseStreamUndialed(h: Host, c: nat, i: nat, a: Released)
    requires i < |h.streams|
    ensures Undialed(h, CloseStream(h, c, i, a))
  {
    hide FailNegotiation;
    FailNegotiationUndialed(h, i, a);
  }

  lemma {:induction false} CloseStreamsUndialed(h: Host, c: nat, i: nat, a: Released)
    ensures Undialed(h, CloseStreams(h, c, i, a))
    decreases |h.streams| - i
  {
    hide CloseStream, Undialed;
    Same(h);
    if i < |h.streams| {
      var z := CloseStream(h, c, i, a);
      CloseStreamUndialed(h, c, i, a);
      CloseStreamsUndialed(z, c, i + 1, a);
      UndialedThen(h, z, CloseStreams(z, c, i + 1, a));
    }
  }

  /** The end of a known connection is no word on a dial. */
  lemma EndedUndialed(h: Host, handle: nat, attempt: nat, a: Released)
    requires FindConn(h, handle) < |h.conns|
    ensures Undialed(h, OnEnded(h, handle, attempt, a))
  {
    hide FailWaiting, CloseStreams, Undialed, Push, OnDialFailed;
    Same(h);
    var c := FindConn(h, handle);
    if !h.conns[c].closed {
      var h0 := FailWaiting(h, c, 0);
      FailWaitingUndialed(h, c, 0);
      CloseStreamsUndialed(h0, c, 0, a);
      UndialedThen(h, h0, CloseStreams(h0, c, 0, a));
      var h1 := if h0.lost == h.lost then CloseStreams(h0, c, 0, a) else h0;
      if h1.lost == h.lost { ShutUndialed(h, h1, c); }
    }
  }

  lemma ShutUndialed(h: Host, y: Host, c: nat)
    requires Undialed(h, y) && c < |y.conns|
    ensures
      var v := y.conns[c].(closed := true, closePending := true);
      Undialed(h, Push(y.(conns := y.conns[c := v]), Event(ConnClosed, Some(c), None, None, None)))
  {
    hide Push;
    var y1 := y.(conns := y.conns[c := y.conns[c].(closed := true, closePending := true)]);
    PushUndialed(y1, Event(ConnClosed, Some(c), None, None, None));
    assert Undialed(h, y1);
    UndialedThen(h, y1, Push(y1, Event(ConnClosed, Some(c), None, None, None)));
  }

  lemma StreamEventUndialed(h: Host, e: TransportEvent, a: Released)
    requires e.Readable? || e.Writable? || e.Reset? || e.Finished?
    ensures Undialed(h, OnStream(h, e, a))
  {
    hide FailNegotiation;
    if FindStream(h, e.stream) < |h.streams| { FailNegotiationUndialed(h, FindStream(h, e.stream), a); }
  }

  lemma IncomingUndialed(h: Host, handle: nat, stream: nat)
    ensures Undialed(h, OnIncoming(h, handle, stream).0)
  {
  }

  lemma RetryUndialed(h: Host, o: nat, a: OpenAnswer)
    requires o < |h.opens|
    ensures Undialed(h, RetryOpen(h, o, a))
  {
    hide FailOpen;
    FailOpenUndialed(h, o);
  }

  lemma NegotiateUndialed(h: Host, i: nat, x: Outcome, a: Released)
    requires i < |h.streams|
    ensures Undialed(h, Negotiate(h, i, x, a))
  {
    hide FailNegotiation, CompleteNegotiation;
    FailNegotiationUndialed(h, i, a);
    if x.Agreed? { CompleteUndialed(h, i, x.onOpen, a); }
  }

  lemma CallUndialed(h: Host, i: nat, s: Stream, kind: Callback, x: CallbackAnswer, a: Released)
    requires i < |h.streams|
    ensures Undialed(h, CallEvent(h, i, s, kind, x, a))
  {
    hide StreamRelease;
    ReleaseUndialed(h.(streams := h.streams[i := s], calls := h.calls + [Call(s.id, kind, x == Accepted)]), i, a);
  }

  lemma DeliverUndialed(h: Host, i: nat, x: CallbackAnswer, a: Released)
    requires i < |h.streams|
    ensures Undialed(h, Deliver(h, i, x, a))
  {
    hide StreamRelease, CallEvent, Undialed;
    var s := h.streams[i];
    Same(h);
    CallUndialed(h, i, s.(reset := false), OnReset, x, a);
    CallUndialed(h, i, s.(closed := false), OnClosed, x, a);
    CallUndialed(h, i, s.(readable := false), OnReadable, x, a);
    CallUndialed(h, i, s.(writable := false), OnWritable, x, a);
    var y := CallEvent(h, i, s.(closed := false), OnClosed, x, a);
    ReleaseUndialed(y, i, a);
    UndialedThen(h, y, StreamRelease(y, i, a));
  }

  lemma OpenUndialed(h: Host, c: nat, known: bool, userData: nat, a: OpenAnswer)
    ensures Undialed(h, OpenStream(h, c, known, userData, a).0)
  {
  }

  lemma CancelUndialed(h: Host, o: nat, userData: nat, a: Released)
    ensures Undialed(h, Cancel(h, o, userData, a).0)
  {
    hide StreamRelease, OpenRelease, TryRecycle;
    if o < |h.opens| {
      var c, j := h.opens[o].conn, OwnerOf(h, o);
      var h0 := h.(resolved := h.resolved + [h.opens[o].id]);
      GivenBackUndialed(h0, o, c, a);
      if j < |h.streams| {
        var h1 := h0.(streams := h.streams[j := h.streams[j].(open := None)]);
        ReleaseUndialed(h1, j, a);
        GivenBackUndialed(StreamRelease(h1, j, a), o, c, a);
      }
    }
  }

  lemma GivenBackUndialed(h: Host, o: nat, c: nat, a: Released)
    ensures Undialed(h, TryRecycle(OpenRelease(h, o), c, a))
  {
    hide OpenRelease, TryRecycle, Undialed;
    SmallUndialed(h, o, 0, a);
    SmallUndialed(OpenRelease(h, o), 0, c, a);
    UndialedThen(h, OpenRelease(h, o), TryRecycle(OpenRelease(h, o), c, a));
  }

  // ---------------------------------------------------------------- the life of a dial slot

  /** The transport's word on attempt x: a connection with a slot for it, a failure, or the end of an unknown one. */
  predicate Word(h: Host, l: Label, x: nat) {
    l.LTransport? &&
    match l.event
    case Established(handle, y, _) => y == x && (FindConn(h, handle) < |h.conns| || FreeConn(h) < |h.conns|)
    case DialFailure(y) => y == x
    case Ended(handle, y) => y == x && FindConn(h, handle) == |h.conns|
    case _ => false
  }

  /** The dial is the first that waits for this word. */
  predicate Resolves(h: Host, l: Label, d: nat) {
    && d < |h.dials| && h.dials[d].state == DialPending && Word(h, l, h.dials[d].attempt)
    && forall j :: 0 <= j < d ==> !(h.dials[j].state == DialPending && h.dials[j].attempt == h.dials[d].attempt)
  }

  /** What the caller is told: the connection, or that the dial failed; with its own handle and user data. */
  function Report(h: Host, l: Label, d: nat): Event
    requires Resolves(h, l, d)
  {
    match l.event
    case Established(handle, _, _) =>
      var c := if FindConn(h, handle) < |h.conns| then FindConn(h, handle) else FreeConn(h);
      Event(ConnEstablished, Some(c), None, Some(d), None, None, h.dials[d].userData)
    case _ => Event(DialFailed, None, None, Some(d), None, None, h.dials[d].userData)
  }

  predicate Accepts(h: Host, l: Label, d: nat) {
    l.LDial? && l.ok && h.phase == Started && d < |h.dials| && FreeDial(h) == d
  }

  predicate Consumes(h: Host, l: Label, d: nat) {
    l.LNextEvent? && h.events != [] && h.events[0].dial == Some(d)
  }

  /** Nothing else happens to a dial slot; a refused dial leaves a free one free. */
  ghost predicate DialTurn(h: Host, l: Label, z: Host, d: nat)
    requires d < |h.dials| == |z.dials|
  {
    var s, t := h.dials[d], z.dials[d];
    if Accepts(h, l, d) then s.state == DialFree && t == Dial(DialPending, l.attempt, l.userData)
    else if Resolves(h, l, d) then t == s.(state := DialEvented) && z.events == h.events + [Report(h, l, d)]
    else if Consumes(h, l, d) then s.state == DialEvented && t.state == DialFree
    else t == s || (s.state == DialFree && t.state == DialFree)
  }

  /** An event that carries a dial is queued only by the word that resolves that dial. */
  ghost predicate DialNews(h: Host, l: Label, z: Host) {
    forall e :: e in z.events && e !in h.events && e.dial.Some? ==>
      Resolves(h, l, e.dial.value) && e == Report(h, l, e.dial.value)
  }

  ghost predicate DialStep(h: Host, l: Label, z: Host) {
    && |z.dials| == |h.dials| && (forall d :: 0 <= d < |h.dials| ==> DialTurn(h, l, z, d)) && DialNews(h, l, z)
  }

  lemma UndialedStep(h: Host, l: Label, z: Host)
    requires Undialed(h, z) && !l.LDial? && !l.LNextEvent? && forall d: nat :: !Resolves(h, l, d)
    ensures DialStep(h, l, z)
  {
    hide Resolves;
    forall e | e in z.events && e !in h.events ensures e.dial == None {
      var news := z.events[|h.events|..];
      assert z.events == h.events + news;
      var k :| 0 <= k < |news| && news[k] == e;
      assert z.events[|h.events| + k] == e;
    }
  }

  lemma NotWord(h: Host, l: Label)
    requires l.LTransport? ==>
      !l.event.Established? && !l.event.DialFailure? &&
      (l.event.Ended? ==> FindConn(h, l.event.handle) < |h.conns|)
    ensures forall d: nat :: !Resolves(h, l, d)
  {
    hide FindConn, FreeConn;
  }

  lemma FoundIs(h: Host, l: Label, x: nat, d: nat)
    requires Word(h, l, x)
    ensures d < |h.dials| && d == FindDial(h, x) <==> Resolves(h, l, d)
  {
    WordIsTransport(h, l, x);
    hide Word;
  }

  lemma DialCallStep(h: Host, l: Label)
    requires l.LDial? && Enabled(h, l)
    ensures DialStep(h, l, Apply(h, l))
  {
    hide FreeDial, FindConn, FreeConn;
    FreeIs(h);
    var z := Apply(h, l);
    forall d | 0 <= d < |h.dials| ensures DialTurn(h, l, z, d) {
      assert !Resolves(h, l, d) && !Consumes(h, l, d);
    }
  }

  lemma FreeIs(h: Host)
    ensures FreeDial(h) <= |h.dials| && (FreeDial(h) < |h.dials| ==> h.dials[FreeDial(h)].state == DialFree)
  {
  }

  /** Marking the dial that was found, and queueing its report */
  lemma NoticeStep(h: Host, l: Label, g: Host, x: nat, userData: nat, kind: EventKind, conn: Option<nat>)
    requires Word(h, l, x) && g.dials == h.dials && g.events == h.events && PushFits(g)
    requires kind == ConnEstablished || FindDial(h, x) < |h.dials|
    requires forall d: nat :: Resolves(h, l, d) ==>
      Report(h, l, d) == Event(kind, conn, None, Some(d), None, None, h.dials[d].userData)
    ensures
      var d := FindDial(h, x);
      DialStep(h, l, Push(MarkDial(g, d), EvOnDial(kind, conn, d, h, userData)))
  {
    hide Word, FindDial, Report;
    var f := FindDial(h, x);
    var e := EvOnDial(kind, conn, f, h, userData);
    var z := Push(MarkDial(g, f), e);
    WordIsTransport(h, l, x);
    forall d | 0 <= d < |h.dials| ensures DialTurn(h, l, z, d) {
      FoundIs(h, l, x, d);
    }
    forall n | n in z.events && n !in h.events && n.dial.Some?
      ensures Resolves(h, l, n.dial.value) && n == Report(h, l, n.dial.value)
    {
      assert n == e;
      FoundIs(h, l, x, f);
    }
  }

  lemma WordIsTransport(h: Host, l: Label, x: nat)
    requires Word(h, l, x)
    ensures l.LTransport?
    ensures forall d: nat :: Resolves(h, l, d) ==> h.dials[d].attempt == x
  {
    hide FindConn, FreeConn;
  }

  lemma EstablishedStep(h: Host, l: Label)
    requires Inv(h) && Enabled(h, l) && l.LTransport? && l.event.Established?
    ensures DialStep(h, l, Apply(h, l))
  {
    hide Inv, FindConn, FreeConn, FindDial, MarkDial, DialStep, Push;
    GateFits(h);
    var handle, x, u := l.event.handle, l.event.attempt, l.event.userData;
    var existing := FindConn(h, handle);
    var c := if existing < |h.conns| then existing else FreeConn(h);
    FreeAtMost(h, handle);
    if c == |h.conns| {
      assert forall d: nat :: !Resolves(h, l, d);
      Same(h);
      UndialedStep(h, l, h);
    } else {
      var g := if existing < |h.conns| then h
        else h.(conns := h.conns[c := NO_CONN.(active := true, handle := handle)]);
      NoticeStep(h, l, g, x, u, ConnEstablished, Some(c));
    }
  }

  lemma FreeAtMost(h: Host, handle: nat)
    ensures FreeConn(h) <= |h.conns| && FindConn(h, handle) <= |h.conns|
  {
  }

  lemma GateFits(h: Host)
    ensures TransportGate(h) ==> PushFits(h)
  {
  }

  lemma DialFailedStep(h: Host, l: Label, x: nat)
    requires Word(h, l, x) && l.LTransport? && !l.event.Established? && PushFits(h)
    ensures DialStep(h, l, OnDialFailed(h, x))
  {
    hide FindConn, FreeConn, DialStep, Push, MarkDial;
    if FindDial(h, x) < |h.dials| {
      hide FindDial;
      NoticeStep(h, l, h, x, 0, DialFailed, None);
    } else {
      forall d: nat ensures !Resolves(h, l, d) { FoundIs(h, l, x, d); }
      Same(h);
      UndialedStep(h, l, h);
    }
  }

  lemma TransportStep(h: Host, l: Label)
    requires Inv(h) && Enabled(h, l) && l.LTransport?
    ensures DialStep(h, l, Apply(h, l))
  {
    hide Inv, OnEnded, OnStream, OnDialFailed, OnIncoming, FindConn, FreeConn, DialStep;
    GateFits(h);
    match l.event
    case Established(_, _, _) => EstablishedStep(h, l);
    case DialFailure(x) => DialFailedStep(h, l, x);
    case Ended(handle, x) =>
      FreeAtMost(h, handle);
      if FindConn(h, handle) == |h.conns| {
        UnknownEnds(h, handle, x, l.released);
        DialFailedStep(h, l, x);
      } else {
        NotWord(h, l);
        EndedUndialed(h, handle, x, l.released);
        UndialedStep(h, l, Apply(h, l));
      }
    case Incoming(handle, stream) =>
      NotWord(h, l);
      IncomingUndialed(h, handle, stream);
      UndialedStep(h, l, Apply(h, l));
    case Nothing =>
      NotWord(h, l);
      Same(h);
      UndialedStep(h, l, h);
    case _ =>
      NotWord(h, l);
      StreamEventUndialed(h, l.event, l.released);
      UndialedStep(h, l, Apply(h, l));
  }

  lemma UnknownEnds(h: Host, handle: nat, x: nat, a: Released)
    requires FindConn(h, handle) == |h.conns|
    ensures OnEnded(h, handle, x, a) == OnDialFailed(h, x)
  {
  }

  /** Consuming an event frees the dial that it carries, and no other. */
  lemma NextStep(h: Host, l: Label)
    requires Inv(h) && Enabled(h, l) && l.LNextEvent?
    ensures DialStep(h, l, Apply(h, l))
  {
    hide Structure, Queue, Covered, Announced, History, LastWord, Resolve, ReadClose;
    NextDials(h, l.released);
    var e, z := h.events[0], Apply(h, l);
    forall d | 0 <= d < |h.dials| ensures DialTurn(h, l, z, d) {
      assert !Accepts(h, l, d) && !Resolves(h, l, d);
    }
    assert forall n :: n in h.events[1..] ==> n in h.events;
  }

  lemma NextDials(h: Host, a: Released)
    requires h.events != []
    ensures NextEvent(h, a).events == h.events[1..]
    ensures NextEvent(h, a).dials == Undial(h, h.events[0]).dials
  {
    hide OpenRelease, TryRecycle;
    var e := h.events[0];
    var h2 := Undial(h.(events := h.events[1..]), e);
    if e.open.Some? && e.open.value < |h.opens| {
      SmallUndialed(h2, e.open.value, 0, a);
      ResolveDials(h2, e, a);
      ReadDials(Resolve(h2, e, a), e, a);
    } else {
      ReadDials(h2, e, a);
    }
  }

  lemma ResolveDials(h: Host, e: Event, a: Released)
    requires e.open.Some? && e.open.value < |h.opens|
    ensures Resolve(h, e, a).dials == h.dials && Resolve(h, e, a).events == h.events
  {
  }

  lemma ReadDials(h: Host, e: Event, a: Released)
    ensures ReadClose(h, e, a).dials == h.dials && ReadClose(h, e, a).events == h.events
  {
  }

  /** What every step does to dials and to the events that carry them. */
  lemma DialsTurn(h: Host, l: Label)
    requires Inv(h) && Enabled(h, l)
    ensures DialStep(h, l, Apply(h, l))
  {
    hide Inv, OnTransport, Cancel, NextEvent, Deliver, Negotiate, TransportObeys, OpenStream, RetryOpen, TryRecycle;
    hide DialStep;
    if !l.LTransport? { NotWord(h, l); }
    var z := Apply(h, l);
    match l
    case LDial(_, _, _) => DialCallStep(h, l);
    case LNextEvent(_) => NextStep(h, l);
    case LTransport(_, _) => TransportStep(h, l);
    case LCancel(o, userData, a) => CancelUndialed(h, o, userData, a); UndialedStep(h, l, z);
    case LDeliver(i, x, a) => DeliverUndialed(h, i, x, a); UndialedStep(h, l, z);
    case LNegotiate(i, x, a) => NegotiateUndialed(h, i, x, a); UndialedStep(h, l, z);
    case LOpen(c, known, userData, a) => OpenUndialed(h, c, known, userData, a); UndialedStep(h, l, z);
    case LRetry(o, a) => RetryUndialed(h, o, a); UndialedStep(h, l, z);
    case LRecycle(c, a) => SmallUndialed(h, 0, c, a); UndialedStep(h, l, z);
    case _ => PlainUndialed(h, l); UndialedStep(h, l, z);
  }

  lemma PlainUndialed(h: Host, l: Label)
    requires Enabled(h, l) && (l.LClose? || l.LCloseConn? || l.LComplete? || l.LDrive? || l.LReturn?)
    ensures Undialed(h, Apply(h, l))
  {
  }

  // ------------------------------------------------------------------------- over runs

  ghost predicate AcceptedAt(m: Limits, labels: seq<Label>, k: nat, d: nat)
    requires Run(m, labels).Some? && k < |labels|
  {
    Accepts(Past(m, labels, k), labels[k], d)
  }

  ghost predicate ResolvedAt(m: Limits, labels: seq<Label>, k: nat, d: nat)
    requires Run(m, labels).Some? && k < |labels|
  {
    Resolves(Past(m, labels, k), labels[k], d)
  }

  ghost predicate ConsumedAt(m: Limits, labels: seq<Label>, k: nat, d: nat)
    requires Run(m, labels).Some? && k < |labels|
  {
    Consumes(Past(m, labels, k), labels[k], d)
  }

  /** A dial is accepted exactly when the call answers Ok. */
  lemma AcceptedIsOk(h: Host, l: Label)
    requires l.LDial?
    ensures DialStatus(h, l.ok) == Ok <==> Accepts(h, l, FreeDial(h))
  {
  }

  lemma PastDial(m: Limits, labels: seq<Label>, t: nat, d: nat)
    requires ValidLimits(m) && Run(m, labels).Some? && t < |labels|
    ensures |Past(m, labels, t + 1).dials| == |Past(m, labels, t).dials|
    ensures DialNews(Past(m, labels, t), labels[t], Past(m, labels, t + 1))
    ensures d < |Past(m, labels, t).dials| ==>
      DialTurn(Past(m, labels, t), labels[t], Past(m, labels, t + 1), d)
  {
    hide Run, Past, Inv, Apply, Enabled, DialTurn, DialNews;
    PastStep(m, labels, t);
    DialsTurn(Past(m, labels, t), labels[t]);
  }

  /** Until the transport gives its word, an accepted dial waits with the attempt and the user data it was made for. */
  lemma {:induction false} DialWaits(m: Limits, labels: seq<Label>, k: nat, t: nat, d: nat)
    requires ValidLimits(m) && Run(m, labels).Some? && k < t <= |labels| && AcceptedAt(m, labels, k, d)
    requires forall j: nat :: k < j < t ==> !ResolvedAt(m, labels, j, d)
    ensures d < |Past(m, labels, t).dials|
    ensures Past(m, labels, t).dials[d] == Dial(DialPending, labels[k].attempt, labels[k].userData)
    decreases t
  {
    hide Run, Past, Resolves, DialNews, Inv;
    PastDial(m, labels, t - 1, d);
    if t > k + 1 {
      DialWaits(m, labels, k, t - 1, d);
      assert !ResolvedAt(m, labels, t - 1, d);
      PastStep(m, labels, t - 1);
      OnlyEvented(Past(m, labels, t - 1), labels[t - 1], d);
      TakenIsFree(Past(m, labels, t - 1), labels[t - 1], d);
    }
  }

  lemma OnlyEvented(h: Host, l: Label, d: nat)
    ensures Inv(h) && Consumes(h, l, d) ==> d < |h.dials| && h.dials[d].state == DialEvented
  {
    hide Structure, Queue, Covered, Announced, History, LastWord;
  }

  lemma TakenIsFree(h: Host, l: Label, d: nat)
    ensures Accepts(h, l, d) ==> h.dials[d].state == DialFree
  {
    FreeIs(h);
  }

  /** A pending dial was accepted, and nothing has resolved it since. */
  lemma {:induction false} PendingSince(m: Limits, labels: seq<Label>, t: nat, d: nat) returns (k: nat)
    requires ValidLimits(m) && Run(m, labels).Some? && t <= |labels| && d < |Past(m, labels, t).dials|
    requires Past(m, labels, t).dials[d].state == DialPending
    ensures k < t && AcceptedAt(m, labels, k, d)
    ensures forall j: nat :: k < j < t ==> !ResolvedAt(m, labels, j, d)
    decreases t
  {
    hide Run, Past, Resolves, DialNews, Inv;
    if t == 0 {
      NoDialsAtFirst(m, labels, d);
      assert false;
    }
    PastDial(m, labels, t - 1, d);
    k := t - 1;
    if !AcceptedAt(m, labels, t - 1, d) {
      assert !ResolvedAt(m, labels, t - 1, d);
      k := PendingSince(m, labels, t - 1, d);
    }
  }

  lemma NoDialsAtFirst(m: Limits, labels: seq<Label>, d: nat)
    requires Run(m, labels).Some? && d < |Past(m, labels, 0).dials|
    ensures Past(m, labels, 0).dials[d].state == DialFree
  {
    hide Run, Past;
    PastEnds(m, labels);
  }

  /**
    Every event that carries a dial has its cause: a dial was accepted in that slot, the transport gave its word on
    that very attempt, no other word resolved it before, and the event reports it with the caller's user data.
  */
  lemma {:induction false} ReportsHaveCauses(m: Limits, labels: seq<Label>, t: nat, e: Event) returns (k: nat, r: nat)
    requires ValidLimits(m) && Run(m, labels).Some? && t <= |labels| && e in Past(m, labels, t).events && e.dial.Some?
    ensures k < r < t && AcceptedAt(m, labels, k, e.dial.value) && ResolvedAt(m, labels, r, e.dial.value)
    ensures forall j: nat :: k < j < r ==> !ResolvedAt(m, labels, j, e.dial.value)
    ensures Word(Past(m, labels, r), labels[r], labels[k].attempt)
    ensures e == Report(Past(m, labels, r), labels[r], e.dial.value) && e.userData == labels[k].userData
    decreases t
  {
    hide Run, Past, DialTurn, Inv, Word;
    if t == 0 {
      PastEnds(m, labels);
      assert false;
    }
    if e in Past(m, labels, t - 1).events {
      k, r := ReportsHaveCauses(m, labels, t - 1, e);
    } else {
      r := t - 1;
      PastDial(m, labels, r, e.dial.value);
      k := PendingSince(m, labels, r, e.dial.value);
      DialWaits(m, labels, k, r, e.dial.value);
    }
  }

  /** The word on a waiting dial's attempt resolves it, if no other dial waits for the same. */
  lemma DialHeard(m: Limits, labels: seq<Label>, k: nat, r: nat, d: nat)
    requires ValidLimits(m) && Run(m, labels).Some? && k < r < |labels| && AcceptedAt(m, labels, k, d)
    requires forall j: nat :: k < j < r ==> !ResolvedAt(m, labels, j, d)
    requires forall j :: 0 <= j < |Past(m, labels, r).dials| && j != d ==>
      Past(m, labels, r).dials[j].state != DialPending || Past(m, labels, r).dials[j].attempt != labels[k].attempt
    ensures ResolvedAt(m, labels, r, d) <==> Word(Past(m, labels, r), labels[r], labels[k].attempt)
    ensures ResolvedAt(m, labels, r, d) ==>
      var e := Report(Past(m, labels, r), labels[r], d);
      Past(m, labels, r + 1).events == Past(m, labels, r).events + [e] && e.userData == labels[k].userData
  {
    hide Run, Past, Word, Inv;
    DialWaits(m, labels, k, r, d);
    PastDial(m, labels, r, d);
    TakenIsFree(Past(m, labels, r), labels[r], d);
    if ResolvedAt(m, labels, r, d) { WordIs(Past(m, labels, r), labels[r], d); }
  }

  lemma WordIs(h: Host, l: Label, d: nat)
    requires Resolves(h, l, d)
    ensures l.LTransport? && Report(h, l, d).userData == h.dials[d].userData
  {
    hide FindConn, FreeConn;
  }

  /** Once resolved, the slot does not wait again before another dial is accepted in it. */
  lemma {:induction false} NotWaiting(m: Limits, labels: seq<Label>, r: nat, t: nat, d: nat)
    requires ValidLimits(m) && Run(m, labels).Some? && r < t <= |labels| && ResolvedAt(m, labels, r, d)
    requires forall j: nat :: r < j < t ==> !AcceptedAt(m, labels, j, d)
    ensures d < |Past(m, labels, t).dials| && Past(m, labels, t).dials[d].state != DialPending
    decreases t
  {
    hide Run, Past, DialNews, Inv, Word;
    PastDial(m, labels, t - 1, d);
    if t == r + 1 {
      TakenIsFree(Past(m, labels, r), labels[r], d);
    } else {
      NotWaiting(m, labels, r, t - 1, d);
      assert !AcceptedAt(m, labels, t - 1, d);
    }
  }

  /** So every accepted dial is reported at most once: between two reports of a slot another dial was accepted in it. */
  lemma ReportedOnce(m: Limits, labels: seq<Label>, r: nat, t: nat, d: nat)
    requires ValidLimits(m) && Run(m, labels).Some? && r < t < |labels|
    requires ResolvedAt(m, labels, r, d) && ResolvedAt(m, labels, t, d)
    ensures exists j: nat :: r < j < t && AcceptedAt(m, labels, j, d)
  {
    hide Run, Past, Word;
    if forall j: nat :: r < j < t ==> !AcceptedAt(m, labels, j, d) { NotWaiting(m, labels, r, t, d); }
  }

  /** And a report stays queued until the caller takes it. */
  lemma {:induction false} ReportStays(m: Limits, labels: seq<Label>, r: nat, t: nat, d: nat)
    requires ValidLimits(m) && Run(m, labels).Some? && r < t <= |labels| && ResolvedAt(m, labels, r, d)
    requires forall j: nat :: r < j < t ==> !ConsumedAt(m, labels, j, d)
    ensures d < |Past(m, labels, t).dials| && Past(m, labels, t).dials[d].state == DialEvented
    ensures DialCarried(Past(m, labels, t).events, d)
    ensures forall e :: e in Past(m, labels, t).events && e.dial == Some(d) ==>
      e == Report(Past(m, labels, r), labels[r], d)
    decreases t
  {
    hide Run, Past, Word, Inv, Report, DialCarried, DialTurn, DialNews, Resolves, Consumes, Apply, Enabled;
    PastDial(m, labels, t - 1, d);
    PastStep(m, labels, t - 1);
    ResolvesOne(Past(m, labels, r), labels[r], d);
    if t == r + 1 {
      FirstReport(Past(m, labels, r), labels[r], Past(m, labels, t), d);
    } else {
      ReportStays(m, labels, r, t - 1, d);
      assert !ConsumedAt(m, labels, t - 1, d);
      var e := Report(Past(m, labels, r), labels[r], d);
      SameReport(Past(m, labels, t - 1), labels[t - 1], Past(m, labels, t), d, e);
    }
    EventedCarried(Past(m, labels, t), d);
  }

  lemma ResolvesOne(h: Host, l: Label, d: nat)
    requires Resolves(h, l, d)
    ensures d < |h.dials|
  {
    hide Word;
  }

  lemma FirstReport(h: Host, l: Label, z: Host, d: nat)
    requires Inv(h) && d < |h.dials| == |z.dials| && DialTurn(h, l, z, d) && Resolves(h, l, d)
    ensures z.dials[d].state == DialEvented
    ensures forall e :: e in z.events && e.dial == Some(d) ==> e == Report(h, l, d)
  {
    hide Inv, Word, Report;
    TakenIsFree(h, l, d);
    PendingUncarried(h, d);
  }

  lemma SameReport(h: Host, l: Label, z: Host, d: nat, report: Event)
    requires d < |h.dials| == |z.dials| && DialTurn(h, l, z, d) && DialNews(h, l, z) && !Consumes(h, l, d)
    requires h.dials[d].state == DialEvented && forall e :: e in h.events && e.dial == Some(d) ==> e == report
    ensures z.dials[d].state == DialEvented
    ensures forall e :: e in z.events && e.dial == Some(d) ==> e == report
  {
    hide Word, Report;
    TakenIsFree(h, l, d);
  }

  lemma PendingUncarried(h: Host, d: nat)
    requires Inv(h) && d < |h.dials| && h.dials[d].state == DialPending
    ensures forall e :: e in h.events ==> e.dial != Some(d)
  {
    hide Structure, Queue, Covered, Announced, History, LastWord;
  }

  lemma EventedCarried(h: Host, d: nat)
    requires Inv(h) && d < |h.dials|
    ensures h.dials[d].state == DialEvented ==> DialCarried(h.events, d)
  {
    hide Structure, Queue, Covered, Announced, History, LastWord;
  }
}
