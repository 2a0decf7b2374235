/** What the transport's events do: establishment, failed dials, and the cascade behind a closed connection. */
module HostCascade {
  import opened Bytes
  import opened Host
  import opened HostInv
  import opened HostTables
  import opened HostRelease
  import opened HostCompletion
  import opened HostOpening

  // ---------------------------------------------------------------- connections

  function NewConn(h: Host, c: nat, handle: nat): Host
    requires c < |h.conns|
  {
    h.(conns := h.conns[c := NO_CONN.(active := true, handle := handle)])
  }

  /** Nothing names an inactive slot. */
  lemma InactiveUnnamed(h: Host, c: nat)
    requires Queued(h) && c < |h.conns| && !h.conns[c].active
    ensures forall k :: 0 <= k < |h.events| ==> h.events[k].conn != Some(c)
  {
    forall k | 0 <= k < |h.events| ensures h.events[k].conn != Some(c) {
      assert EventOk(h.conns, h.opens, h.events[k]);
    }
  }

  lemma NewConnKeeps(h: Host, c: nat, handle: nat)
    requires Inv(h) && c < |h.conns| && !h.conns[c].active
    ensures Inv(NewConn(h, c, handle))
  {
    hide Links, Owners, Tallies, Queue, Covered, Announced, DialsOk, Attempts, Talks, LastWord;
    var v := NO_CONN.(active := true, handle := handle);
    InactiveUnnamed(h, c);
    assert h.conns[c] == NO_CONN;
    LinksConn(h.conns, h.streams, h.opens, c, v);
    TalliesConn(h.conns, h.streams, h.opens, h.maxStreams, c, v);
    QueueConn(h.conns, h.opens, h.events, c, v);
    CoveredConn(h.conns, h.opens, h.events, c, v);
  }

  /** local_close_requested matters to no other slot. */
  lemma MarkedKeeps(h: Host, c: nat)
    requires Inv(h) && c < |h.conns| && h.conns[c].active
    ensures Inv(h.(conns := h.conns[c := h.conns[c].(localClose := true)]))
  {
    var v := h.conns[c].(localClose := true);
    LinksConn(h.conns, h.streams, h.opens, c, v);
    TalliesConn(h.conns, h.streams, h.opens, h.maxStreams, c, v);
    QueueConn(h.conns, h.opens, h.events, c, v);
    CoveredConn(h.conns, h.opens, h.events, c, v);
    hide Links, Owners, Tallies, Queue, Covered, Announced, DialsOk, Attempts, Talks, LastWord;
  }

  // ---------------------------------------------------------------------- dials

  lemma DialsNotice(dials: seq<Dial>, events: seq<Event>, d: nat, e: Event)
    requires DialsOk(dials, events) && d < |dials| && dials[d].state == DialPending && e.dial == Some(d)
    requires e.userData == dials[d].userData
    ensures DialsOk(dials[d := dials[d].(state := DialEvented)], events + [e])
  {
    var t, ds := events + [e], dials[d := dials[d].(state := DialEvented)];
    forall x | 0 <= x < |ds| && ds[x].state == DialEvented ensures DialCarried(t, x) {
      if x == d {
        assert t[|events|].dial == Some(d);
      } else {
        var k :| 0 <= k < |events| && events[k].dial == Some(x);
        assert t[k].dial == Some(x);
      }
    }
  }

  /** An event about a connection that is not closed, or about none, joins the queue and takes its dial along. */
  lemma NoticeKeeps(h: Host, d: nat, e: Event)
    requires Inv(h) && PushFits(h)
    requires e.kind == ConnEstablished || e.kind == DialFailed
    requires e.open == None && (e.conn.Some? ==> Usable(h, e.conn.value))
    requires e.dial == if d < |h.dials| then Some(d) else None
    requires d < |h.dials| ==> h.dials[d].state == DialPending && e.userData == h.dials[d].userData
    ensures Inv(Push(MarkDial(h, d), e))
  {
    hide Zeroed, Links, Owners, Tallies, Queue, Covered, Announced, DialsOk, Attempts, Talks, LastWord;
    if e.conn.Some? { QueueFacts(h.conns, h.opens, h.events, 0, e.conn.value); }
    QueuePush(h.conns, h.opens, h.events, e);
    CoveredPush(h.conns, h.opens, h.events, e);
    AnnouncedPush(h.streams, h.events, e);
    LastWordPush(h.events, h.phase, e);
    if d < |h.dials| { DialsNotice(h.dials, h.events, d, e); } else { DialsPush(h.dials, h.events, e); }
  }

  lemma EstablishedKeeps(h: Host, handle: nat, attempt: nat, userData: nat)
    requires Inv(h) && PushFits(h)
    requires FindConn(h, handle) < |h.conns| ==> !h.conns[FindConn(h, handle)].closed
    ensures Inv(OnEstablished(h, handle, attempt, userData).0)
  {
    var existing := FindConn(h, handle);
    var c := if existing < |h.conns| then existing else FreeConn(h);
    if c < |h.conns| {
      var d := FindDial(h, attempt);
      if existing == |h.conns| { NewConnKeeps(h, c, handle); }
      var h1 := if existing < |h.conns| then h else NewConn(h, c, handle);
      NoticeKeeps(h1, d, EvOnDial(ConnEstablished, Some(c), d, h, userData));
      hide Inv;
    }
  }

  lemma DialFailedKeeps(h: Host, attempt: nat)
    requires Inv(h) && PushFits(h)
    ensures Inv(OnDialFailed(h, attempt))
  {
    var d := FindDial(h, attempt);
    if d < |h.dials| {
      NoticeKeeps(h, d, EvOnDial(DialFailed, None, d, h, 0));
    }
  }

  /** A dial slot that no event carries may change hands. */
  lemma DialSlotKeeps(h: Host, d: nat, v: Dial)
    requires Inv(h) && d < |h.dials| && h.dials[d].state == DialFree && v.state != DialEvented
    ensures Inv(h.(dials := h.dials[d := v]))
  {
    hide Zeroed, Links, Owners, Tallies, Queue, Covered, Announced, Attempts, Talks, LastWord;
  }

  // ---------------------------------------------------------- a connection closes

  /** There is room for every open that may still fail, and one more. */
  ghost predicate Room(h: Host) {
    h.eventCapacity - |h.events| > Unevented(h.opens)
  }

  lemma EventedRoom(h: Host, o: nat, e: Event)
    requires Room(h) && o < |h.opens| && h.opens[o].state != OpenEvented
    ensures Room(Evented(h, o, e))
  {
    UneventedUpdate(h.opens, o, h.opens[o].(state := OpenEvented));
  }

  ghost predicate NoneWaiting(h: Host, c: nat, n: nat) {
    forall o :: 0 <= o < |h.opens| && o < n && h.opens[o].state == OpenWaiting ==> h.opens[o].conn != c
  }

  ghost predicate NoneNegotiating(h: Host, c: nat, n: nat) {
    forall i :: 0 <= i < |h.streams| && i < n && h.streams[i].state == StreamNegotiating ==> h.streams[i].conn != c
  }

  /** What a cascade over c keeps: the invariant, the room, and c itself still open. */
  ghost predicate Cascading(h: Host, c: nat) {
    Inv(h) && Room(h) && Usable(h, c)
  }

  lemma CascadingFits(h: Host, c: nat)
    requires Cascading(h, c)
    ensures PushFits(h)
  {
    hide Inv, Usable;
  }

  lemma FailOneKeeps(h: Host, c: nat, o: nat)
    requires Cascading(h, c) && NoneWaiting(h, c, o) && o < |h.opens|
    requires h.opens[o].state == OpenWaiting && h.opens[o].conn == c
    ensures PushFits(h)
    ensures
      var z := FailOpen(h, o);
      Cascading(z, c) && NoneWaiting(z, c, o + 1) && z.lost == h.lost && |z.opens| == |h.opens|
  {
    FailOpenKeeps(h, o);
    EventedRoom(h, o, FailedEvent(h.opens[o].conn, o, h.opens[o].userData));
    hide Inv, Room, FailOpen;
  }

  lemma FailWaitingUnfold(h: Host, c: nat, o: nat)
    requires o < |h.opens| && PushFits(h)
    ensures FailWaiting(h, c, o) ==
      FailWaiting(if h.opens[o].state == OpenWaiting && h.opens[o].conn == c then FailOpen(h, o) else h, c, o + 1)
  {
    hide FailOpen;
  }

  lemma {:induction false} FailWaitingKeeps(h: Host, c: nat, o: nat)
    requires Cascading(h, c) && NoneWaiting(h, c, o)
    ensures Cascading(FailWaiting(h, c, o), c) && NoneWaiting(FailWaiting(h, c, o), c, |h.opens|)
    ensures FailWaiting(h, c, o).lost == h.lost
    decreases |h.opens| - o
  {
    hide Cascading;
    if o < |h.opens| {
      CascadingFits(h, c);
      FailWaitingUnfold(h, c, o);
      hide FailWaiting, FailOpen;
      if h.opens[o].state == OpenWaiting && h.opens[o].conn == c {
        FailOneKeeps(h, c, o);
        hide NoneWaiting;
        FailWaitingKeeps(FailOpen(h, o), c, o + 1);
      } else {
        FailWaitingKeeps(h, c, o + 1);
      }
    }
  }

  /** Dropping a negotiating stream of c keeps the room, and c itself. */
  lemma DroppedRoom(h: Host, i: nat)
    requires Room(h) && i < |h.streams| && h.streams[i].conn < |h.conns|
    requires h.streams[i].open.Some? ==>
      h.streams[i].open.value < |h.opens| && h.opens[h.streams[i].open.value].state == OpenNegotiating
    ensures Room(Dropped(h, i)) && Dropped(h, i).phase == h.phase && Dropped(h, i).lost == h.lost
    ensures Dropped(h, i).streams == h.streams[i := NO_STREAM] && |Dropped(h, i).opens| == |h.opens|
    ensures forall c :: Usable(h, c) ==> Usable(Dropped(h, i), c)
    ensures forall o :: 0 <= o < |h.opens| && Dropped(h, i).opens[o].state == OpenWaiting ==>
      Dropped(h, i).opens[o] == h.opens[o]
  {
    var s := h.streams[i];
    if s.outbound && s.open.Some? {
      var o := s.open.value;
      EventedRoom(h, o, FailedEvent(h.opens[o].conn, o, h.opens[o].userData));
    }
  }

  lemma NegotiatingLink(h: Host, i: nat)
    requires Structure(h) && i < |h.streams| && h.streams[i].state == StreamNegotiating
    ensures h.streams[i].conn < |h.conns|
    ensures h.streams[i].open.Some? ==>
      h.streams[i].open.value < |h.opens| && h.opens[h.streams[i].open.value].state == OpenNegotiating
  {
    assert StreamOk(h.conns, h.opens, h.streams[i]);
  }

  /** z is h after its stream i was dropped. */
  lemma DroppedCascade(h: Host, z: Host, c: nat, i: nat)
    requires Cascading(h, c) && NoneWaiting(h, c, |h.opens|) && NoneNegotiating(h, c, i) && i < |h.streams|
    requires Inv(z) && Room(z) && z.phase == h.phase && z.streams == h.streams[i := NO_STREAM] && |z.opens| == |h.opens|
    requires Usable(z, c)
    requires forall o :: 0 <= o < |h.opens| && z.opens[o].state == OpenWaiting ==> z.opens[o] == h.opens[o]
    ensures Cascading(z, c) && NoneWaiting(z, c, |h.opens|) && NoneNegotiating(z, c, i + 1)
  {
    hide Inv, Room, Usable;
  }

  lemma NegotiatingCloses(h: Host, c: nat, i: nat, a: Released)
    requires Cascading(h, c) && NoneWaiting(h, c, |h.opens|) && NoneNegotiating(h, c, i)
    requires i < |h.streams| && h.streams[i].state == StreamNegotiating
    ensures
      var z := FailNegotiation(h, i, a);
      && Cascading(z, c) && NoneWaiting(z, c, |h.opens|) && NoneNegotiating(z, c, i + 1) && z.lost == h.lost
      && |z.opens| == |h.opens| && |z.streams| == |h.streams|
  {
    assert h.streams[i].conn < |h.conns| && FailNegotiation(h, i, a) == Dropped(h, i) && Inv(Dropped(h, i)) by {
      hide FailNegotiation, Dropped, Structure, Queued, History, LastWord;
      FailNegotiationKeeps(h, i, a);
    }
    NegotiatingLink(h, i) by { hide Links; }
    hide FailNegotiation, Inv, NoneWaiting, NoneNegotiating;
    DroppedRoom(h, i);
    hide Dropped, Room;
    DroppedCascade(h, Dropped(h, i), c, i);
  }

  /** One stream of the closing connection: a negotiating one is dropped, an open one is marked. */
  lemma CloseStreamKeeps(h: Host, c: nat, i: nat, a: Released)
    requires Cascading(h, c) && NoneWaiting(h, c, |h.opens|) && NoneNegotiating(h, c, i) && i < |h.streams|
    ensures
      var z := CloseStream(h, c, i, a);
      && Cascading(z, c) && NoneWaiting(z, c, |h.opens|) && NoneNegotiating(z, c, i + 1) && z.lost == h.lost
      && |z.opens| == |h.opens| && |z.streams| == |h.streams|
  {
    hide Inv, FailNegotiation;
    var s := h.streams[i];
    if s.state == StreamNegotiating && s.conn == c {
      NegotiatingCloses(h, c, i, a);
    } else if s.state == StreamOpen && s.conn == c {
      FlagKeeps(h, i, s.(closed := true));
    }
  }

  /** The pending flags of an in-use stream matter to no other slot. */
  lemma FlagKeeps(h: Host, i: nat, s: Stream)
    requires Inv(h) && i < |h.streams| && h.streams[i].state != StreamFree
    requires s == h.streams[i].(readable := s.readable, writable := s.writable, reset := s.reset, closed := s.closed)
    ensures Inv(h.(streams := h.streams[i := s]))
  {
    assert StreamOk(h.conns, h.opens, h.streams[i]);
    LinksStream(h.conns, h.streams, h.opens, i, s);
    OwnersStream(h.streams, h.opens, i, s);
    TalliesStream(h.conns, h.streams, h.opens, h.maxStreams, i, s);
    AnnouncedStream(h.streams, h.events, i, s);
    TalksStream(h.streams, h.born, h.calls, i, s);
    hide Links, Owners, Tallies, Queue, Covered, Announced, DialsOk, Attempts, Talks, LastWord;
  }

  lemma {:induction false} CloseStreamsKeeps(h: Host, c: nat, i: nat, a: Released)
    requires Cascading(h, c) && NoneWaiting(h, c, |h.opens|) && NoneNegotiating(h, c, i)
    ensures
      var z := CloseStreams(h, c, i, a);
      Cascading(z, c) && NoneWaiting(z, c, |h.opens|) && NoneNegotiating(z, c, |h.streams|) && z.lost == h.lost
    decreases |h.streams| - i
  {
    hide Inv, CloseStream;
    if i < |h.streams| {
      CloseStreamKeeps(h, c, i, a);
      CloseStreamsUnfold(h, c, i, a);
      hide Cascading, NoneWaiting, NoneNegotiating, CloseStreams;
      CloseStreamsKeeps(CloseStream(h, c, i, a), c, i + 1, a);
    }
  }

  lemma CloseStreamsUnfold(h: Host, c: nat, i: nat, a: Released)
    requires i < |h.streams| && CloseStream(h, c, i, a).lost == h.lost
    ensures CloseStreams(h, c, i, a) == CloseStreams(CloseStream(h, c, i, a), c, i + 1, a)
  {
    hide CloseStream;
  }

  /** Then every open on the connection has been reported. */
  lemma AllReported(h: Host, c: nat, o: nat)
    requires Structure(h) && NoneWaiting(h, c, |h.opens|) && NoneNegotiating(h, c, |h.streams|)
    requires o < |h.opens| && h.opens[o].state != OpenFree && h.opens[o].conn == c
    ensures h.opens[o].state == OpenEvented
  {
    if h.opens[o].state == OpenNegotiating {
      var i :| 0 <= i < |h.streams| && Owns(h.streams[i], o);
      assert StreamOk(h.conns, h.opens, h.streams[i]);
    }
  }

  function Shut(h: Host, c: nat): Host
    requires c < |h.conns|
  {
    h.(conns := h.conns[c := h.conns[c].(closed := true, closePending := true)],
       events := h.events + [Event(ConnClosed, Some(c), None, None, None)])
  }

  lemma ShutStructure(h: Host, c: nat)
    requires Structure(h) && Usable(h, c) && NoneWaiting(h, c, |h.opens|) && NoneNegotiating(h, c, |h.streams|)
    ensures Structure(Shut(h, c))
  {
    hide Links, Owners, Tallies;
    var v := h.conns[c].(closed := true, closePending := true);
    forall o | 0 <= o < |h.opens| && h.opens[o].state != OpenFree && h.opens[o].conn == c
      ensures h.opens[o].state == OpenEvented
    {
      AllReported(h, c, o);
    }
    LinksConn(h.conns, h.streams, h.opens, c, v);
    TalliesConn(h.conns, h.streams, h.opens, h.maxStreams, c, v);
  }

  lemma ShutQueued(h: Host, c: nat)
    requires Queued(h) && Usable(h, c)
    ensures Queued(Shut(h, c))
  {
    hide Queue, Covered, Announced, DialsOk;
    var v := h.conns[c].(closed := true, closePending := true);
    var e := Event(ConnClosed, Some(c), None, None, None);
    QueueFacts(h.conns, h.opens, h.events, 0, c);
    QueueConn(h.conns, h.opens, h.events, c, v);
    QueuePush(h.conns[c := v], h.opens, h.events, e);
    CoveredPush(h.conns, h.opens, h.events, e);
    CloseQueuedPush(h.events, e, c);
    CoveredConn(h.conns, h.opens, h.events + [e], c, v);
    AnnouncedPush(h.streams, h.events, e);
    DialsPush(h.dials, h.events, e);
  }

  lemma ShutKeeps(h: Host, c: nat)
    requires Cascading(h, c) && NoneWaiting(h, c, |h.opens|) && NoneNegotiating(h, c, |h.streams|)
    ensures Inv(Shut(h, c))
  {
    hide Structure, Queued, Attempts, Talks, LastWord;
    ShutStructure(h, c);
    ShutQueued(h, c);
    LastWordPush(h.events, h.phase, Event(ConnClosed, Some(c), None, None, None));
  }

  function Swept(h: Host, c: nat, a: Released): Host {
    CloseStreams(FailWaiting(h, c, 0), c, 0, a)
  }

  /** The whole cascade, with every open it fails, still leaves room for its CONN_CLOSED. */
  lemma CascadeKeeps(h: Host, c: nat, a: Released)
    requires Cascading(h, c)
    ensures FailWaiting(h, c, 0).lost == h.lost && Swept(h, c, a).lost == h.lost && PushFits(Swept(h, c, a))
    ensures c < |Swept(h, c, a).conns| && Inv(Shut(Swept(h, c, a), c))
  {
    hide Inv, Room, FailWaiting, CloseStreams;
    FailWaitingKeeps(h, c, 0);
    CloseStreamsKeeps(FailWaiting(h, c, 0), c, 0, a);
    ShutKeeps(Swept(h, c, a), c);
    CascadingFits(Swept(h, c, a), c);
  }

  lemma EndedIs(h: Host, handle: nat, attempt: nat, a: Released)
    requires
      var c := FindConn(h, handle);
      c < |h.conns| && !h.conns[c].closed && FailWaiting(h, c, 0).lost == h.lost == Swept(h, c, a).lost
        && PushFits(Swept(h, c, a))
    ensures FindConn(h, handle) < |Swept(h, FindConn(h, handle), a).conns|
    ensures OnEnded(h, handle, attempt, a) == Shut(Swept(h, FindConn(h, handle), a), FindConn(h, handle))
  {
    hide FailWaiting, CloseStreams;
  }

  lemma EndedKeeps(h: Host, handle: nat, attempt: nat, a: Released)
    requires Inv(h) && TransportGate(h)
    ensures Inv(OnEnded(h, handle, attempt, a))
  {
    hide Inv, Swept, FailWaiting;
    var c := FindConn(h, handle);
    if c == |h.conns| {
      DialFailedKeeps(h, attempt);
    } else if !h.conns[c].closed {
      CascadeKeeps(h, c, a);
      hide OnEnded;
      EndedIs(h, handle, attempt, a);
    }
  }
}
