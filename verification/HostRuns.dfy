/** Notifications, closing down, and every label of a run. */
module HostRuns {
  import opened Bytes
  import opened Host
  import opened HostInv
  import opened HostTables
  import opened HostRelease
  import opened HostCompletion
  import opened HostOpening
  import opened HostEvents
  import opened HostCascade

  lemma StreamEventKeeps(h: Host, e: TransportEvent, a: Released)
    requires Inv(h) && PushFits(h) && (e.Readable? || e.Writable? || e.Reset? || e.Finished?)
    ensures Inv(OnStream(h, e, a))
  {
    hide Inv, FailNegotiation;
    var i := FindStream(h, e.stream);
    if i < |h.streams| {
      var s := h.streams[i];
      if s.state == StreamNegotiating && (e.Reset? || e.Finished?) {
        FailNegotiationKeeps(h, i, a);
      } else {
        match e
        case Readable(_) => FlagKeeps(h, i, s.(readable := true));
        case Writable(_) => FlagKeeps(h, i, s.(writable := true));
        case Reset(_) => FlagKeeps(h, i, s.(reset := true));
        case Finished(_) => FlagKeeps(h, i, s.(closed := true));
        case _ =>
      }
    }
  }

  // -------------------------------------------------------------- notifications

  function Recorded(h: Host, i: nat, s: Stream, call: Call): Host
    requires i < |h.streams|
  {
    h.(streams := h.streams[i := s], calls := h.calls + [call])
  }

  /** A notification that the protocol accepts, other than CLOSED, leaves the stream open. */
  lemma CalledKeeps(h: Host, i: nat, s: Stream, kind: Callback)
    requires Inv(h) && i < |h.streams| && h.streams[i].state == StreamOpen
    requires s == h.streams[i].(readable := s.readable, writable := s.writable, reset := s.reset, closed := s.closed)
    requires kind != OnOpen && kind != OnClosed
    ensures Inv(Recorded(h, i, s, Call(s.id, kind, true)))
  {
    FlagKeeps(h, i, s);
    TalksCall(h.streams, h.born, h.calls, i, s, Call(s.id, kind, true));
    hide Structure, Queued, Attempts, Talks, LastWord;
    SameTables(h.(streams := h.streams[i := s]), h.calls + [Call(s.id, kind, true)]);
  }

  /** The last notification: refused, or CLOSED. The stream goes, and with it perhaps its connection. */
  lemma LastCallKeeps(h: Host, i: nat, kind: Callback, ok: bool, a: Released)
    requires Inv(h) && i < |h.streams| && h.streams[i].state == StreamOpen
    requires kind != OnOpen && (ok ==> kind == OnClosed)
    ensures h.streams[i].conn < |h.conns|
    ensures Inv(TryRecycle(Vacated(h, i).(calls := h.calls + [Call(h.streams[i].id, kind, ok)]), h.streams[i].conn, a))
  {
    var s := h.streams[i];
    var call := Call(s.id, kind, ok);
    assert StreamOk(h.conns, h.opens, s);
    VacatedStructure(h, i);
    VacatedQueued(h, i);
    TalksCall(h.streams, h.born, h.calls, i, NO_STREAM, call);
    var z := Vacated(h, i).(calls := h.calls + [call]);
    SameTables(Vacated(h, i), h.calls + [call]);
    assert Inv(z) by { hide Structure, Queued, Attempts, Talks, LastWord; }
    RecycleKeeps(z, s.conn, a);
  }

  /** A released slot is free, so releasing it again changes nothing. */
  lemma ReleaseIs(h: Host, i: nat, a: Released)
    requires i < |h.streams| && h.streams[i].state != StreamFree && h.streams[i].conn < |h.conns|
    requires h.streams[i].open.Some? ==>
      h.streams[i].open.value < |h.opens| && h.opens[h.streams[i].open.value].state == OpenEvented
    ensures StreamRelease(h, i, a) == TryRecycle(Vacated(h, i), h.streams[i].conn, a)
    ensures StreamRelease(StreamRelease(h, i, a), i, a) == StreamRelease(h, i, a)
  {
  }

  /** The slot the notification was about is overwritten, so what CallEvent wrote there does not matter. */
  lemma VacatedRecorded(h: Host, i: nat, s: Stream, call: Call, a: Released)
    requires i < |h.streams| && h.streams[i].state == StreamOpen && h.streams[i].conn < |h.conns|
    requires s == h.streams[i].(readable := s.readable, writable := s.writable, reset := s.reset, closed := s.closed)
    requires s.open.Some? ==> s.open.value < |h.opens| && h.opens[s.open.value].state == OpenEvented
    ensures StreamRelease(Recorded(h, i, s, call), i, a)
         == TryRecycle(Vacated(h, i).(calls := h.calls + [call]), h.streams[i].conn, a)
    ensures StreamRelease(StreamRelease(Recorded(h, i, s, call), i, a), i, a) ==
      StreamRelease(Recorded(h, i, s, call), i, a)
  {
    hide StreamRelease, TryRecycle;
    ReleaseIs(Recorded(h, i, s, call), i, a);
    assert h.streams[i := s][i := NO_STREAM] == h.streams[i := NO_STREAM];
    assert Vacated(Recorded(h, i, s, call), i) == Vacated(h, i).(calls := h.calls + [call]);
  }

  /** A notification that is not CLOSED. */
  lemma CallEventKeeps(h: Host, i: nat, s: Stream, kind: Callback, x: CallbackAnswer, a: Released)
    requires Inv(h) && i < |h.streams| && h.streams[i].state == StreamOpen
    requires s == h.streams[i].(readable := s.readable, writable := s.writable, reset := s.reset, closed := s.closed)
    requires kind != OnOpen && kind != OnClosed
    ensures Inv(CallEvent(h, i, s, kind, x, a))
  {
    assert StreamOk(h.conns, h.opens, h.streams[i]);
    hide Inv, StreamRelease, TryRecycle, Vacated;
    match x
    case NoHandler => FlagKeeps(h, i, s);
    case Accepted => CalledKeeps(h, i, s, kind);
    case Refused =>
      LastCallKeeps(h, i, kind, false, a);
      VacatedRecorded(h, i, s, Call(s.id, kind, false), a);
  }

  lemma CloseEventKeeps(h: Host, i: nat, s: Stream, x: CallbackAnswer, a: Released)
    requires Inv(h) && i < |h.streams| && h.streams[i].state == StreamOpen
    requires s == h.streams[i].(readable := s.readable, writable := s.writable, reset := s.reset, closed := s.closed)
    ensures Inv(StreamRelease(CallEvent(h, i, s, OnClosed, x, a), i, a))
  {
    assert StreamOk(h.conns, h.opens, h.streams[i]);
    hide Inv, StreamRelease, TryRecycle, Vacated;
    if x == NoHandler {
      FlagKeeps(h, i, s);
      ReleaseKeeps(h.(streams := h.streams[i := s]), i, a);
    } else {
      var call := Call(s.id, OnClosed, x == Accepted);
      LastCallKeeps(h, i, OnClosed, x == Accepted, a);
      VacatedRecorded(h, i, s, call, a);
      hide StreamOk;
      assert CallEvent(h, i, s, OnClosed, x, a) ==
        if x == Refused then StreamRelease(Recorded(h, i, s, call), i, a) else Recorded(h, i, s, call);
    }
  }

  lemma DeliverKeeps(h: Host, i: nat, x: CallbackAnswer, a: Released)
    requires Inv(h) && i < |h.streams|
    ensures Inv(Deliver(h, i, x, a))
  {
    hide Inv, CallEvent, StreamRelease;
    var s := h.streams[i];
    if s.state == StreamOpen {
      if s.reset { CallEventKeeps(h, i, s.(reset := false), OnReset, x, a); }
      else if s.closed { CloseEventKeeps(h, i, s.(closed := false), x, a); }
      else if s.readable { CallEventKeeps(h, i, s.(readable := false), OnReadable, x, a); }
      else if s.writable { CallEventKeeps(h, i, s.(writable := false), OnWritable, x, a); }
    }
  }

  // --------------------------------------------------------------- closing down

  /** Connection tables that differ in local_close_requested only. */
  ghost predicate Alike(conns: seq<Conn>, conns': seq<Conn>) {
    && |conns'| == |conns|
    && forall k :: 0 <= k < |conns| ==>
         conns'[k] == conns[k].(localClose := conns'[k].localClose) && (!conns[k].active ==> conns'[k] == conns[k])
  }

  lemma AlikeLinks(conns: seq<Conn>, conns': seq<Conn>, streams: seq<Stream>, opens: seq<Open>)
    requires Alike(conns, conns') && Links(conns, streams, opens)
    ensures Links(conns', streams, opens)
  {
    forall i | 0 <= i < |streams| && streams[i].state != StreamFree ensures StreamOk(conns', opens, streams[i]) {
      assert StreamOk(conns, opens, streams[i]);
    }
    forall o | 0 <= o < |opens| && opens[o].state != OpenFree ensures OpenOk(conns', opens[o]) {
      assert OpenOk(conns, opens[o]);
    }
  }

  lemma AlikeQueue(conns: seq<Conn>, conns': seq<Conn>, opens: seq<Open>, events: seq<Event>)
    requires Alike(conns, conns') && Queue(conns, opens, events)
    ensures Queue(conns', opens, events)
  {
    forall k | 0 <= k < |events| ensures EventOk(conns', opens, events[k]) {
      assert EventOk(conns, opens, events[k]);
    }
  }

  lemma CloseHostKeeps(h: Host, failAt: nat)
    requires Inv(h)
    ensures Inv(CloseHost(h, failAt))
  {
    if h.phase == Started {
      var z := CloseHost(h, failAt);
      assert Alike(h.conns, z.conns);
      AlikeLinks(h.conns, z.conns, h.streams, h.opens);
      AlikeQueue(h.conns, z.conns, h.opens, h.events);
      assert Tallies(z.conns, h.streams, h.opens, h.maxStreams);
      assert Covered(z.conns, h.opens, h.events);
      hide Links, Owners, Tallies, Queue, Covered, Announced, DialsOk, Attempts, Talks;
    }
  }

  lemma CompleteKeeps(h: Host)
    requires Inv(h) && PushFits(h)
    ensures Inv(CompleteClose(h))
  {
    if h.phase == Closing && !ActiveWork(h) {
      var e := Event(HostClosed, None, None, None, None);
      QueuePush(h.conns, h.opens, h.events, e);
      CoveredPush(h.conns, h.opens, h.events, e);
      AnnouncedPush(h.streams, h.events, e);
      DialsPush(h.dials, h.events, e);
      assert LastWord(h.events + [e], Closed);
      hide Zeroed, Links, Owners, Tallies, Queue, Covered, Announced, DialsOk, Attempts, Talks, LastWord;
    }
  }

  // ------------------------------------------------------------------ every label

  lemma TransportKeeps(h: Host, e: TransportEvent, a: Released)
    requires Inv(h) && TransportGate(h) && TransportObeys(h, e)
    ensures Inv(OnTransport(h, e, a))
  {
    hide Inv;
    match e
    case Established(handle, attempt, userData) => EstablishedKeeps(h, handle, attempt, userData);
    case Ended(handle, attempt) => EndedKeeps(h, handle, attempt, a);
    case DialFailure(attempt) => DialFailedKeeps(h, attempt);
    case Incoming(handle, stream) => IncomingKeeps(h, handle, stream);
    case Nothing =>
    case _ => StreamEventKeeps(h, e, a);
  }

  lemma CancelKeeps(h: Host, o: nat, userData: nat, a: Released)
    requires Inv(h)
    ensures Inv(Cancel(h, o, userData, a).0)
  {
    if h.phase != Closed && o < |h.opens| {
      hide Inv;
      if h.opens[o].state == OpenWaiting { CancelWaitingKeeps(h, o, userData, a); }
      if h.opens[o].state == OpenNegotiating { CancelNegotiatingKeeps(h, o, userData, a); }
    }
  }

  /** Every public call and every step of a drive keeps the invariant. */
  lemma ApplyKeeps(h: Host, l: Label)
    requires Inv(h) && Enabled(h, l)
    ensures Inv(Apply(h, l))
  {
    hide Inv, OnTransport, Cancel, OpenStream, NextEvent, RetryOpen, Negotiate, Deliver, CloseHost, CompleteClose;
    hide TryRecycle, TransportObeys;
    match l
    case LDial(attempt, userData, ok) =>
      var d := FreeDial(h);
      if h.phase == Started && d < |h.dials| {
        DialSlotKeeps(h, d, if ok then Dial(DialPending, attempt, userData) else NO_DIAL);
      }
    case LOpen(c, known, userData, a) => OpenStreamKeeps(h, c, known, userData, a);
    case LCancel(o, userData, a) => CancelKeeps(h, o, userData, a);
    case LNextEvent(a) => NextEventKeeps(h, a);
    case LClose(failAt) => CloseHostKeeps(h, failAt);
    case LCloseConn(c, ok) => if Usable(h, c) { MarkedKeeps(h, c); }
    case LTransport(e, a) => TransportKeeps(h, e, a);
    case LRetry(o, a) => RetryKeeps(h, o, a);
    case LNegotiate(i, x, a) => NegotiateKeeps(h, i, x, a);
    case LDeliver(i, x, a) => DeliverKeeps(h, i, x, a);
    case LRecycle(c, a) => RecycleKeeps(h, c, a);
    case LComplete => CompleteKeeps(h);
    case LDrive => DrivingKeeps(h, true);
    case LReturn => DrivingKeeps(h, false);
  }

  lemma DrivingKeeps(h: Host, driving: bool)
    requires Inv(h)
    ensures Inv(h.(driving := driving))
  {
    hide Zeroed, Links, Owners, Tallies, Queue, Covered, Announced, DialsOk, Attempts, Talks, LastWord;
  }

  lemma {:induction false} NoStreamsIn(ss: seq<Stream>, c: nat)
    requires forall i :: 0 <= i < |ss| ==> ss[i].state == StreamFree
    ensures StreamsOn(ss, c) == 0
  {
    if ss != [] { NoStreamsIn(ss[..|ss| - 1], c); }
  }

  lemma {:induction false} NoOpensIn(os: seq<Open>, c: nat)
    requires forall i :: 0 <= i < |os| ==> os[i].state == OpenFree
    ensures OpensOn(os, c) == 0
  {
    if os != [] { NoOpensIn(os[..|os| - 1], c); }
  }

  lemma FreshKeeps(m: Limits)
    requires ValidLimits(m)
    ensures Inv(Fresh(m))
  {
    var h := Fresh(m);
    forall c | 0 <= c < |h.conns| ensures StreamsOn(h.streams, c) == 0 && OpensOn(h.opens, c) == 0 {
      NoStreamsIn(h.streams, c);
      NoOpensIn(h.opens, c);
    }
  }

  /** The invariant holds in every reachable state. */
  lemma {:induction false} RunKeeps(m: Limits, labels: seq<Label>)
    requires ValidLimits(m) && Run(m, labels).Some?
    ensures Inv(Run(m, labels).value)
    decreases |labels|
  {
    hide Inv, Apply, Enabled;
    if labels == [] {
      FreshKeeps(m);
    } else {
      var k := |labels| - 1;
      RunKeeps(m, labels[..k]);
      ApplyKeeps(Run(m, labels[..k]).value, labels[k]);
    }
  }

  // ------------------------------------------------------------------- looking back

  lemma {:induction false} PrefixRuns(m: Limits, labels: seq<Label>, k: nat)
    requires Run(m, labels).Some? && k <= |labels|
    ensures Run(m, labels[..k]).Some?
    decreases |labels| - k
  {
    hide Apply, Enabled, Fresh;
    if k == |labels| {
      assert labels[..k] == labels;
    } else {
      PrefixRuns(m, labels, k + 1);
      assert labels[..k + 1][..k] == labels[..k];
    }
  }

  /** The state of a run before its label k. */
  ghost function Past(m: Limits, labels: seq<Label>, k: nat): Host
    requires Run(m, labels).Some? && k <= |labels|
  {
    PrefixRuns(m, labels, k);
    Run(m, labels[..k]).value
  }

  lemma PastEnds(m: Limits, labels: seq<Label>)
    requires Run(m, labels).Some?
    ensures Past(m, labels, 0) == Fresh(m) && Past(m, labels, |labels|) == Run(m, labels).value
  {
    hide Fresh;
    assert labels[..|labels|] == labels && labels[..0] == [];
  }

  lemma PastStep(m: Limits, labels: seq<Label>, k: nat)
    requires ValidLimits(m) && Run(m, labels).Some? && k < |labels|
    ensures Inv(Past(m, labels, k)) && Enabled(Past(m, labels, k), labels[k])
    ensures Past(m, labels, k + 1) == Apply(Past(m, labels, k), labels[k]) && Inv(Past(m, labels, k + 1))
  {
    hide Inv, Apply, Enabled, Fresh;
    PrefixRuns(m, labels, k);
    PrefixRuns(m, labels, k + 1);
    RunKeeps(m, labels[..k]);
    RunKeeps(m, labels[..k + 1]);
    assert labels[..k + 1][..k] == labels[..k];
  }
}
