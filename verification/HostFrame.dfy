/** What the steps of the host leave alone: history, phase and the queued STREAM_OPENED events. */
module HostFrame {
  import opened Bytes
  import opened Host

  /** Tables may change, events may be queued, but nothing is issued, resolved, called back or announced. */
  ghost predicate Aside(h: Host, z: Host) {
    && z.phase == h.phase && z.driving == h.driving && z.issued == h.issued && z.resolved == h.resolved
    && z.calls == h.calls
    && h.born <= z.born && NoNews(h.events, z.events)
  }

  ghost predicate NoNews(es: seq<Event>, es': seq<Event>) {
    forall e :: e in es' && e.kind == StreamOpened ==> e in es
  }

  lemma AsideThen(h: Host, y: Host, z: Host)
    requires Aside(h, y) && Aside(y, z)
    ensures Aside(h, z)
  {
  }

  lemma OpenReleaseAside(h: Host, o: nat)
    ensures Aside(h, OpenRelease(h, o)) && OpenRelease(h, o).events == h.events
  {
  }

  lemma RecycleAside(h: Host, c: nat, a: Released)
    ensures Aside(h, TryRecycle(h, c, a)) && TryRecycle(h, c, a).events == h.events
  {
  }

  lemma SetConnAside(h: Host, c: nat, v: Conn)
    ensures Aside(h, SetConn(h, c, v)) && SetConn(h, c, v).events == h.events
    ensures SetConn(h, c, v).streams == h.streams && SetConn(h, c, v).opens == h.opens
  {
  }

  lemma ReleaseAside(h: Host, i: nat, a: Released)
    ensures Aside(h, StreamRelease(h, i, a)) && StreamRelease(h, i, a).events == h.events
  {
    hide OpenRelease, TryRecycle, SetConn, NoNews;
    if i < |h.streams| && h.streams[i].state != StreamFree {
      var s := h.streams[i];
      var v := ConnAt(h, s.conn);
      var h1 := SetConn(h, s.conn, v.(streamCount := Minus1(v.streamCount)));
      SetConnAside(h, s.conn, v.(streamCount := Minus1(v.streamCount)));
      if s.open.Some? { OpenReleaseAside(h1, s.open.value); }
      var h2 := if s.open.Some? && s.open.value < |h.opens| && h.opens[s.open.value].state != OpenEvented
                then OpenRelease(h1, s.open.value) else h1;
      RecycleAside(h2.(streams := h2.streams[i := NO_STREAM]), s.conn, a);
      SameNews(h.events);
    } else {
      SameNews(h.events);
    }
  }

  lemma SameNews(es: seq<Event>)
    ensures NoNews(es, es)
  {
  }

  lemma FailOpenAside(h: Host, o: nat)
    requires o < |h.opens|
    ensures Aside(h, FailOpen(h, o)) && FailOpen(h, o).streams == h.streams
  {
  }

  lemma FailNegotiationAside(h: Host, i: nat, a: Released)
    requires i < |h.streams|
    ensures Aside(h, FailNegotiation(h, i, a))
  {
    hide StreamRelease, FailOpen, Aside;
    var s := h.streams[i];
    ReleaseAside(h, i, a);
    if s.outbound && s.open.Some? && s.open.value < |h.opens| {
      FailOpenAside(h, s.open.value);
      ReleaseAside(FailOpen(h, s.open.value), i, a);
      AsideThen(h, FailOpen(h, s.open.value), FailNegotiation(h, i, a));
    }
  }

  lemma Unchanged(h: Host)
    ensures Aside(h, h)
  {
  }

  lemma {:induction false} FailWaitingAside(h: Host, c: nat, o: nat)
    ensures Aside(h, FailWaiting(h, c, o)) && FailWaiting(h, c, o).streams == h.streams
    decreases |h.opens| - o
  {
    hide FailOpen, Aside;
    Unchanged(h);
    if o < |h.opens| {
      FailOpenAside(h, o);
      var z := if h.opens[o].state == OpenWaiting && h.opens[o].conn == c then FailOpen(h, o) else h;
      FailWaitingAside(z, c, o + 1);
      AsideThen(h, z, FailWaiting(z, c, o + 1));
    }
  }

  lemma CloseStreamAside(h: Host, c: nat, i: nat, a: Released)
    requires i < |h.streams|
    ensures Aside(h, CloseStream(h, c, i, a))
  {
    hide FailNegotiation;
    FailNegotiationAside(h, i, a);
  }

  lemma {:induction false} CloseStreamsAside(h: Host, c: nat, i: nat, a: Released)
    ensures Aside(h, CloseStreams(h, c, i, a))
    decreases |h.streams| - i
  {
    hide CloseStream, Aside;
    Unchanged(h);
    if i < |h.streams| {
      var z := CloseStream(h, c, i, a);
      CloseStreamAside(h, c, i, a);
      CloseStreamsAside(z, c, i + 1, a);
      AsideThen(h, z, CloseStreams(z, c, i + 1, a));
    }
  }

  /** A CONN_CLOSED, a DIAL_FAILED or a CONN_ESTABLISHED is queued, or lost. */
  lemma PushAside(h: Host, e: Event)
    requires e.kind != StreamOpened
    ensures Aside(h, Push(h, e))
  {
  }

  lemma DialFailedAside(h: Host, attempt: nat)
    ensures Aside(h, OnDialFailed(h, attempt)) && OnDialFailed(h, attempt).streams == h.streams
  {
  }

  lemma EstablishedAside(h: Host, handle: nat, attempt: nat, userData: nat)
    ensures
      var z := OnEstablished(h, handle, attempt, userData).0;
      Aside(h, z) && z.streams == h.streams
  {
  }

  lemma EndedAside(h: Host, handle: nat, attempt: nat, a: Released)
    ensures Aside(h, OnEnded(h, handle, attempt, a))
  {
    hide FailWaiting, CloseStreams, Aside, Push, OnDialFailed;
    DialFailedAside(h, attempt);
    Unchanged(h);
    var c := FindConn(h, handle);
    if c < |h.conns| && !h.conns[c].closed {
      var h0 := FailWaiting(h, c, 0);
      FailWaitingAside(h, c, 0);
      CloseStreamsAside(h0, c, 0, a);
      var h1 := if h0.lost == h.lost then CloseStreams(h0, c, 0, a) else h0;
      AsideThen(h, h0, CloseStreams(h0, c, 0, a));
      assert Aside(h, h1);
      if h1.lost == h.lost { ClosedAside(h, h1, c); }
    }
  }

  lemma ClosedAside(h: Host, y: Host, c: nat)
    requires Aside(h, y) && c < |y.conns|
    ensures
      var v := y.conns[c].(closed := true, closePending := true);
      Aside(h, Push(y.(conns := y.conns[c := v]), Event(ConnClosed, Some(c), None, None, None)))
  {
    hide Push;
    var y1 := y.(conns := y.conns[c := y.conns[c].(closed := true, closePending := true)]);
    PushAside(y1, Event(ConnClosed, Some(c), None, None, None));
    assert Aside(h, y1);
    AsideThen(h, y1, Push(y1, Event(ConnClosed, Some(c), None, None, None)));
  }

  lemma StreamEventAside(h: Host, e: TransportEvent, a: Released)
    requires e.Readable? || e.Writable? || e.Reset? || e.Finished?
    ensures Aside(h, OnStream(h, e, a))
  {
    hide FailNegotiation;
    if FindStream(h, e.stream) < |h.streams| { FailNegotiationAside(h, FindStream(h, e.stream), a); }
  }

  lemma IncomingAside(h: Host, handle: nat, stream: nat)
    ensures Aside(h, OnIncoming(h, handle, stream).0)
  {
  }

  lemma TransportAside(h: Host, e: TransportEvent, a: Released)
    ensures Aside(h, OnTransport(h, e, a))
  {
    hide OnEnded, OnStream, OnEstablished, OnDialFailed, OnIncoming, Aside;
    Unchanged(h);
    match e
    case Established(handle, attempt, userData) => EstablishedAside(h, handle, attempt, userData);
    case Ended(handle, attempt) => EndedAside(h, handle, attempt, a);
    case DialFailure(attempt) => DialFailedAside(h, attempt);
    case Incoming(handle, stream) => IncomingAside(h, handle, stream);
    case Nothing =>
    case _ => StreamEventAside(h, e, a);
  }

  lemma RetryAside(h: Host, o: nat, a: OpenAnswer)
    requires o < |h.opens|
    ensures Aside(h, RetryOpen(h, o, a))
  {
    hide FailOpen;
    FailOpenAside(h, o);
  }

  /** An open slot is given back, and its connection perhaps with it. */
  lemma GivenBackAside(h: Host, o: nat, c: nat, a: Released)
    ensures Aside(h, TryRecycle(OpenRelease(h, o), c, a))
  {
  }
}
