/** HOST_CLOSED: queued once, and last unless a connection comes up in the drive that closed the host. */
module HostClosing {
  import opened Bytes
  import opened Host
  import opened HostInv
  import opened HostEvents
  import opened HostRuns
  import opened HostProofs
  import opened HostHandles
  import opened HostFrame

  /** Closed, and nothing left to do. */
  ghost predicate Quiet(h: Host) {
    h.phase == Closed && !ActiveWork(h)
  }

  predicate IsEstablished(l: Label) {
    l.LTransport? && l.event.Established?
  }

  lemma NextEventPops(h: Host, a: Released)
    requires Inv(h) && h.events != []
    ensures NextEvent(h, a).events == h.events[1..]
    ensures NextEvent(h, a).phase == h.phase && NextEvent(h, a).driving == h.driving
    ensures !ActiveWork(h) ==> !ActiveWork(NextEvent(h, a))
  {
    hide NextEvent, Inv;
    hide ActiveWork, TryRecycle, PoppedOpen, PoppedClose, PoppedPlain;
    NextEventIs(h, a);
    var e := h.events[0];
    if e.open.Some? { PoppedOpenIdle(h, e.open.value); }
    else if e.kind == ConnClosed { PoppedCloseIdle(h, e.conn.value, a); }
    else { PoppedPlainIdle(h); }
  }

  /** Consuming an event makes no work. */
  lemma PoppedOpenIdle(h: Host, o: nat)
    requires h.events != [] && o < |h.opens| && h.opens[o].conn < |h.conns|
    ensures PoppedOpen(h, o).events == h.events[1..]
    ensures PoppedOpen(h, o).phase == h.phase && PoppedOpen(h, o).driving == h.driving
    ensures !ActiveWork(h) ==> !ActiveWork(PoppedOpen(h, o))
  {
  }

  lemma PoppedPlainIdle(h: Host)
    requires h.events != []
    ensures PoppedPlain(h).events == h.events[1..]
    ensures PoppedPlain(h).phase == h.phase && PoppedPlain(h).driving == h.driving
    ensures !ActiveWork(h) ==> !ActiveWork(PoppedPlain(h))
  {
  }

  lemma PoppedCloseIdle(h: Host, c: nat, a: Released)
    requires h.events != [] && c < |h.conns|
    ensures
      var z := TryRecycle(PoppedClose(h, c), c, a);
      z.events == h.events[1..] && z.phase == h.phase && z.driving == h.driving && (!ActiveWork(h) ==> !ActiveWork(z))
  {
    PoppedPlainIdle(h);
    assert !ActiveWork(h) ==> !ActiveWork(PoppedClose(h, c));
    RecycleIdle(PoppedClose(h, c), c, a);
    hide ActiveWork, TryRecycle;
  }

  lemma RecycleIdle(h: Host, c: nat, a: Released)
    ensures TryRecycle(h, c, a).events == h.events
    ensures TryRecycle(h, c, a).phase == h.phase && TryRecycle(h, c, a).driving == h.driving
    ensures !ActiveWork(h) ==> !ActiveWork(TryRecycle(h, c, a))
  {
  }

  lemma QuietTransport(h: Host, e: TransportEvent, a: Released)
    requires Quiet(h) && !e.Established?
    ensures OnTransport(h, e, a) == h
  {
    match e
    case Ended(handle, attempt) => assert FindDial(h, attempt) == |h.dials|;
    case DialFailure(attempt) => assert FindDial(h, attempt) == |h.dials|;
    case Incoming(_, _) =>
    case Nothing =>
    case Readable(s) => assert FindStream(h, s) == |h.streams|;
    case Writable(s) => assert FindStream(h, s) == |h.streams|;
    case Reset(s) => assert FindStream(h, s) == |h.streams|;
    case Finished(s) => assert FindStream(h, s) == |h.streams|;
    case Established(_, _, _) =>
  }

  /** In a quiet closed host nothing but an established connection queues anything. */
  lemma QuietStep(h: Host, l: Label)
    requires Inv(h) && Quiet(h) && Enabled(h, l) && !IsEstablished(l)
    ensures Quiet(Apply(h, l))
    ensures Apply(h, l).events == if l.LNextEvent? then h.events[1..] else h.events
  {
    if l.LTransport? {
      QuietTransport(h, l.event, l.released);
      hide OnTransport;
    } else if l.LNextEvent? {
      NextEventPops(h, l.released);
      hide NextEvent;
    } else {
      hide OnTransport, NextEvent, Inv, CompleteNegotiation, FailNegotiation, CallEvent, StreamRelease;
    }
  }

  /** An established connection does, whenever there is a slot for it. */
  lemma LateConnection(h: Host, handle: nat, attempt: nat, userData: nat, a: Released)
    requires Inv(h) && Quiet(h) && Enabled(h, LTransport(Established(handle, attempt, userData), a))
    ensures
      var z := Apply(h, LTransport(Established(handle, attempt, userData), a));
      z.events == if FreeConn(h) < |h.conns|
        then h.events + [Event(ConnEstablished, Some(FreeConn(h)), None, None, None, None, userData)] else h.events
  {
    hide Inv;
    assert FindDial(h, attempt) == |h.dials|;
    assert FindConn(h, handle) == |h.conns|;
  }

  /** HOST_CLOSED stays last through a step exactly when the step does not bring a connection up. */
  lemma StaysLastExactly(h: Host, l: Label)
    requires Inv(h) && Quiet(h) && Enabled(h, l) && !l.LNextEvent?
    requires h.events != [] && h.events[|h.events| - 1].kind == HostClosed
    ensures
      var z := Apply(h, l);
      && z.events != []
      && (z.events[|z.events| - 1].kind == HostClosed <==> !(IsEstablished(l) && FreeConn(h) < |h.conns|))
  {
    hide Inv, Apply;
    if IsEstablished(l) {
      LateConnection(h, l.event.handle, l.event.attempt, l.event.userData, l.released);
    } else {
      QuietStep(h, l);
    }
  }

  /** The phase only moves forward, and HOST_CLOSED is queued at the step that closes the host, never again. */
  lemma ClosesOnce(h: Host, l: Label)
    requires Inv(h) && Enabled(h, l)
    ensures h.phase == Closed ==> Apply(h, l).phase == Closed
    ensures h.phase != Closed && Apply(h, l).phase == Closed ==>
      && l.LComplete? && !ActiveWork(h) && !ActiveWork(Apply(h, l))
      && Apply(h, l).events == h.events + [Event(HostClosed, None, None, None, None)]
  {
    hide Inv, OnTransport, Cancel, OpenStream, NextEvent, RetryOpen, Negotiate, Deliver, TryRecycle, TransportObeys;
    if !l.LComplete? && !l.LClose? { SamePhase(h, l); }
    if l.LComplete? { hide Inv; }
  }

  lemma SamePhase(h: Host, l: Label)
    requires Inv(h) && Enabled(h, l) && !l.LComplete? && !l.LClose?
    ensures Apply(h, l).phase == h.phase && (!l.LDrive? && !l.LReturn? ==> Apply(h, l).driving == h.driving)
  {
    hide Inv, OnTransport, Cancel, NextEvent, Negotiate, Deliver, RetryOpen, TransportObeys, NoNews;
    match l
    case LTransport(e, a) => TransportAside(h, e, a);
    case LCancel(o, userData, a) => CancelLedger(h, o, userData, a);
    case LNextEvent(a) => NextEventPops(h, a);
    case LNegotiate(i, x, a) => NegotiateLedger(h, i, x, a);
    case LDeliver(i, x, a) => DeliverLedger(h, i, x, a);
    case LRetry(o, a) => RetryAside(h, o, a);
    case _ =>
  }

  lemma LastWordFacts(h: Host)
    requires Inv(h)
    ensures h.phase != Closed ==> forall k :: 0 <= k < |h.events| ==> h.events[k].kind != HostClosed
  {
    hide Structure, Queued, History;
  }

  // ------------------------------------------------------------------------ over runs

  /** The step brings a connection up in a host that is closed already. */
  predicate ComesLate(h: Host, l: Label) {
    h.phase == Closed && IsEstablished(l) && FreeConn(h) < |h.conns|
  }

  /** Nothing is queued behind a HOST_CLOSED. */
  ghost predicate ClosedIsLast(h: Host) {
    forall k :: 0 <= k < |h.events| && h.events[k].kind == HostClosed ==> k == |h.events| - 1
  }

  /** A closed host is quiet, and until the drive that closed it returns, HOST_CLOSED stands last in the queue. */
  ghost predicate Settled(h: Host) {
    && ClosedIsLast(h)
    && (h.phase == Closed ==> Quiet(h))
    && (h.phase == Closed && h.driving ==> h.events != [] && h.events[|h.events| - 1].kind == HostClosed)
  }

  /** In a quiet host an establishment that finds no free slot changes nothing. */
  lemma NoRoom(h: Host, l: Label)
    requires Inv(h) && Quiet(h) && Enabled(h, l) && IsEstablished(l) && FreeConn(h) == |h.conns|
    ensures Apply(h, l) == h
  {
    hide Inv;
    assert FindConn(h, l.event.handle) == |h.conns|;
  }

  lemma SettledStep(h: Host, l: Label)
    requires Inv(h) && Enabled(h, l) && Inv(Apply(h, l)) && Settled(h) && !ComesLate(h, l)
    ensures Settled(Apply(h, l))
  {
    hide Inv, Apply, ActiveWork, Enabled;
    LastWordFacts(h);
    LastWordFacts(Apply(h, l));
    ClosesOnce(h, l);
    if h.phase == Closed {
      if IsEstablished(l) { NoRoom(h, l); } else { QuietStep(h, l); }
      ClosedDrives(h, l);
    } else if Apply(h, l).phase == Closed {
      var z, e := Apply(h, l), Event(HostClosed, None, None, None, None);
      assert z.events[|h.events|] == e;
      assert forall k :: 0 <= k < |h.events| ==> z.events[k] == h.events[k];
    }
  }

  /** A closed host is not driven again, and events are consumed between drives only. */
  lemma ClosedDrives(h: Host, l: Label)
    requires Inv(h) && Enabled(h, l) && h.phase == Closed
    ensures Apply(h, l).driving ==> h.driving && !l.LNextEvent?
    ensures l.LNextEvent? ==> h.events != []
  {
    hide Inv, OnTransport, Cancel, NextEvent, Negotiate, Deliver, RetryOpen, OpenStream, TransportObeys, ActiveWork;
    if !l.LComplete? && !l.LClose? { SamePhase(h, l); }
  }

  lemma LateIsBehind(h: Host, l: Label)
    requires Inv(h) && Enabled(h, l) && Settled(h) && ComesLate(h, l)
    ensures !ClosedIsLast(Apply(h, l))
  {
    hide Inv, Apply, Quiet;
    LateConnection(h, l.event.handle, l.event.attempt, l.event.userData, l.released);
    var z := Apply(h, l);
    assert h.driving;
    assert z.events[|h.events| - 1].kind == HostClosed;
  }

  lemma FreshSettled(m: Limits)
    ensures Settled(Fresh(m))
  {
  }

  ghost predicate LateAt(m: Limits, labels: seq<Label>, k: nat)
    requires Run(m, labels).Some? && k < |labels|
  {
    ComesLate(Past(m, labels, k), labels[k])
  }

  ghost predicate LastAt(m: Limits, labels: seq<Label>, k: nat)
    requires Run(m, labels).Some? && k <= |labels|
  {
    ClosedIsLast(Past(m, labels, k))
  }

  /** As long as no connection comes late, the host is settled. */
  lemma {:induction false} SettledWhileNoneLate(m: Limits, labels: seq<Label>, k: nat)
    requires ValidLimits(m) && Run(m, labels).Some? && k <= |labels|
    requires forall j :: 0 <= j < k ==> !LateAt(m, labels, j)
    ensures Settled(Past(m, labels, k))
  {
    hide Run, Past, Inv, Apply, Enabled, Settled, ComesLate;
    if k == 0 {
      PastEnds(m, labels);
      FreshSettled(m);
    } else {
      SettledWhileNoneLate(m, labels, k - 1);
      PastStep(m, labels, k - 1);
      assert !LateAt(m, labels, k - 1);
      SettledStep(Past(m, labels, k - 1), labels[k - 1]);
    }
  }

  lemma {:induction false} FirstLate(m: Limits, labels: seq<Label>, k: nat) returns (j: nat)
    requires Run(m, labels).Some? && k < |labels| && LateAt(m, labels, k)
    ensures j <= k && LateAt(m, labels, j) && forall i :: 0 <= i < j ==> !LateAt(m, labels, i)
  {
    hide LateAt;
    j := k;
    if i: nat :| i < k && LateAt(m, labels, i) { j := FirstLate(m, labels, i); }
  }

  /**
    Throughout a run nothing is ever queued behind HOST_CLOSED if and only if no connection is reported established,
    with a slot free for it, once the host is closed; and then a closed host has nothing left to do.
  */
  lemma HostClosedLast(m: Limits, labels: seq<Label>)
    requires ValidLimits(m) && Run(m, labels).Some?
    ensures (forall k :: 0 <= k <= |labels| ==> LastAt(m, labels, k)) <==>
      (forall k :: 0 <= k < |labels| ==> !LateAt(m, labels, k))
    ensures (forall k :: 0 <= k < |labels| ==> !LateAt(m, labels, k)) && Run(m, labels).value.phase == Closed ==>
      !ActiveWork(Run(m, labels).value)
  {
    hide Run, Past, Inv, Apply, Enabled, ComesLate, ClosedIsLast, ActiveWork;
    PastEnds(m, labels);
    if k: nat :| k < |labels| && LateAt(m, labels, k) {
      var j := FirstLate(m, labels, k);
      SettledWhileNoneLate(m, labels, j);
      PastStep(m, labels, j);
      LateIsBehind(Past(m, labels, j), labels[j]);
      assert !LastAt(m, labels, j + 1);
    } else {
      forall k | 0 <= k <= |labels| ensures Settled(Past(m, labels, k)) { SettledWhileNoneLate(m, labels, k); }
      assert forall k :: 0 <= k <= |labels| ==> LastAt(m, labels, k) by {
        forall k | 0 <= k <= |labels| ensures LastAt(m, labels, k) { assert Settled(Past(m, labels, k)); }
      }
      assert Settled(Past(m, labels, |labels|));
    }
  }

  // ------------------------------------------------------------ a run where it is not last

  function Late0(): Host { Stale0() }
  function Late1(): Host { Late0().(phase := Closing) }
  function Late2(): Host { Late1().(driving := true) }
  function Late3(): Host { Late2().(phase := Closed, events := [Event(HostClosed, None, None, None, None)]) }

  function LateLabels(): seq<Label> {
    [LClose(0), LDrive, LComplete, LTransport(Established(7, 0, 0), ReleaseLater)]
  }

  lemma LateSteps()
    ensures Enabled(Late0(), LClose(0)) && Apply(Late0(), LClose(0)) == Late1()
    ensures Enabled(Late1(), LDrive) && Apply(Late1(), LDrive) == Late2()
  {
    assert CloseHost(Late0(), 0).conns == [NO_CONN];
  }

  lemma LateCompletes()
    ensures Enabled(Late2(), LComplete) && Apply(Late2(), LComplete) == Late3()
  {
    assert !ActiveWork(Late2());
  }

  lemma LateEstablishes()
    ensures Enabled(Late3(), LateLabels()[3])
    ensures Apply(Late3(), LateLabels()[3]).events == [Event(HostClosed, None, None, None, None), NEWS]
  {
    assert FreeConn(Late3()) == 0 && FindDial(Late3(), 0) == 1;
  }

  /** The drive loop runs on after closing the host: a connection accepted then is reported behind HOST_CLOSED. */
  lemma ClosedNotLast()
    ensures Run(TIGHT, LateLabels()).Some?
    ensures Run(TIGHT, LateLabels()).value.events == [Event(HostClosed, None, None, None, None), NEWS]
  {
    hide Run, Apply, Enabled, Late1, Late2, Late3;
    StaleStarts();
    LateSteps();
    LateCompletes();
    LateEstablishes();
    var ls := LateLabels();
    assert ls[..0] == [] && ls[..4] == ls;
    ExtendTo(TIGHT, ls, 0, Late0());
    ExtendTo(TIGHT, ls, 1, Late1());
    ExtendTo(TIGHT, ls, 2, Late2());
    ExtendTo(TIGHT, ls, 3, Late3());
  }
}
