/** Opens that fail and streams that leave their slots keep the invariant. */
module HostRelease {
  import opened Bytes
  import opened Host
  import opened HostInv
  import opened HostTables

  // ------------------------------------------------------------ small consequences

  /** Only EVENTED opens are carried by events, and only closed connections have a CONN_CLOSED queued. */
  lemma QueueFacts(conns: seq<Conn>, opens: seq<Open>, events: seq<Event>, o: nat, c: nat)
    requires Queue(conns, opens, events)
    ensures Carried(events, o) ==> o < |opens| && opens[o].state == OpenEvented
    ensures CloseQueued(events, c) ==> c < |conns| && conns[c].closed && conns[c].closePending
  {
    if Carried(events, o) {
      var k :| 0 <= k < |events| && events[k].open == Some(o);
      assert EventOk(conns, opens, events[k]);
    }
    if CloseQueued(events, c) {
      var k :| 0 <= k < |events| && events[k].kind == ConnClosed && events[k].conn == Some(c);
      assert EventOk(conns, opens, events[k]);
    }
  }

  /** Free and waiting opens have no stream. */
  lemma NoOwner(conns: seq<Conn>, streams: seq<Stream>, opens: seq<Open>, o: nat)
    requires Links(conns, streams, opens)
    requires o < |opens| ==> opens[o].state == OpenFree || opens[o].state == OpenWaiting
    ensures forall i :: 0 <= i < |streams| ==> !Owns(streams[i], o)
  {
    forall i | 0 <= i < |streams| ensures !Owns(streams[i], o) {
      assert streams[i].state != StreamFree ==> StreamOk(conns, opens, streams[i]);
    }
  }

  lemma DialsPush(dials: seq<Dial>, events: seq<Event>, e: Event)
    requires DialsOk(dials, events) && e.dial.None?
    ensures DialsOk(dials, events + [e])
  {
    forall d | 0 <= d < |dials| && dials[d].state == DialEvented ensures DialCarried(events + [e], d) {
      var k :| 0 <= k < |events| && events[k].dial == Some(d);
      assert (events + [e])[k].dial == Some(d);
    }
  }

  lemma LastWordPush(events: seq<Event>, phase: Phase, e: Event)
    requires LastWord(events, phase) && e.kind != HostClosed
    ensures LastWord(events + [e], phase)
  {
  }

  // -------------------------------------------------------------- an open gives up

  function Evented(h: Host, o: nat, e: Event): Host
    requires o < |h.opens|
  {
    h.(opens := h.opens[o := h.opens[o].(state := OpenEvented)], events := h.events + [e])
  }

  function FailedEvent(c: nat, o: nat, userData: nat): Event {
    Event(StreamOpenFailed, Some(c), None, None, Some(o), None, userData)
  }

  /** Reporting an open that was not reported before, on a connection whose close is not queued. */
  lemma EventedQueued(h: Host, o: nat, e: Event)
    requires Queued(h) && o < |h.opens| && h.opens[o].state != OpenEvented
    requires h.opens[o].conn < |h.conns| && h.conns[h.opens[o].conn].active && !h.conns[h.opens[o].conn].closed
    requires e.conn == Some(h.opens[o].conn) && e.open == Some(o) && e.dial == None
    requires e.userData == h.opens[o].userData
    requires e.kind == StreamOpenFailed || (e.kind == StreamOpened && e.stream.Some?)
    ensures Queued(Evented(h, o, e))
  {
    hide Queue, Covered, Announced, DialsOk;
    var v := h.opens[o].(state := OpenEvented);
    QueueFacts(h.conns, h.opens, h.events, o, v.conn);
    QueueOpen(h.conns, h.opens, h.events, o, v);
    QueuePush(h.conns, h.opens[o := v], h.events, e);
    CoveredPush(h.conns, h.opens, h.events, e);
    CarriedPush(h.events, e, o);
    CoveredOpen(h.conns, h.opens, h.events + [e], o, v);
    AnnouncedPush(h.streams, h.events, e);
    DialsPush(h.dials, h.events, e);
  }

  lemma EventedHistory(h: Host, o: nat, e: Event)
    requires History(h) && o < |h.opens| && h.opens[o].state != OpenFree
    ensures History(Evented(h, o, e))
  {
    hide Attempts, Talks;
    AttemptsKeep(h.opens, h.issued, h.resolved, o, h.opens[o].(state := OpenEvented));
  }

  lemma WaitingFailsStructure(h: Host, o: nat, e: Event)
    requires Structure(h) && o < |h.opens| && h.opens[o].state == OpenWaiting
    ensures Structure(Evented(h, o, e))
  {
    var v := h.opens[o].(state := OpenEvented);
    NoOwner(h.conns, h.streams, h.opens, o);
    LinksOpen(h.conns, h.streams, h.opens, o, v);
    OwnersOpen(h.streams, h.opens, o, v);
    TalliesOpen(h.conns, h.streams, h.opens, h.maxStreams, o, v);
    hide Links, Owners, Tallies;
  }

  /** A waiting open ends in STREAM_OPEN_FAILED. */
  lemma FailOpenKeeps(h: Host, o: nat)
    requires Inv(h) && PushFits(h) && o < |h.opens| && h.opens[o].state == OpenWaiting
    ensures FailOpen(h, o) == Evented(h, o, FailedEvent(h.opens[o].conn, o, h.opens[o].userData))
    ensures Inv(FailOpen(h, o))
  {
    var e := FailedEvent(h.opens[o].conn, o, h.opens[o].userData);
    assert OpenOk(h.conns, h.opens[o]);
    EventedQueued(h, o, e);
    EventedHistory(h, o, e);
    WaitingFailsStructure(h, o, e);
    LastWordPush(h.events, h.phase, e);
    hide Structure, Queued, History, LastWord;
  }

  // ------------------------------------------------------- a stream leaves its slot

  function Uncounted(h: Host, c: nat): Host
    requires c < |h.conns|
  {
    h.(conns := h.conns[c := h.conns[c].(streamCount := Minus1(h.conns[c].streamCount))])
  }

  /** Slot i is given back and its connection's count drops. */
  function Vacated(h: Host, i: nat): Host
    requires i < |h.streams| && h.streams[i].conn < |h.conns|
  {
    Uncounted(h, h.streams[i].conn).(streams := h.streams[i := NO_STREAM])
  }

  lemma VacatedStructure(h: Host, i: nat)
    requires Structure(h) && i < |h.streams| && h.streams[i].state != StreamFree
    requires h.streams[i].state == StreamNegotiating ==> h.streams[i].open == None
    ensures h.streams[i].conn < |h.conns| && Structure(Vacated(h, i))
  {
    var s := h.streams[i];
    assert StreamOk(h.conns, h.opens, s);
    var v := h.conns[s.conn].(streamCount := Minus1(h.conns[s.conn].streamCount));
    LinksStream(h.conns, h.streams, h.opens, i, NO_STREAM);
    LinksConn(h.conns, h.streams[i := NO_STREAM], h.opens, s.conn, v);
    OwnersStream(h.streams, h.opens, i, NO_STREAM);
    TalliesTurn(h.conns, h.streams, h.opens, h.maxStreams, i, NO_STREAM, s.conn, v);
    hide Links, Owners, Tallies;
  }

  lemma VacatedQueued(h: Host, i: nat)
    requires Queued(h) && i < |h.streams| && h.streams[i].conn < |h.conns| && h.conns[h.streams[i].conn].active
    ensures Queued(Vacated(h, i))
  {
    var c := h.streams[i].conn;
    var v := h.conns[c].(streamCount := Minus1(h.conns[c].streamCount));
    QueueConn(h.conns, h.opens, h.events, c, v);
    CoveredConn(h.conns, h.opens, h.events, c, v);
    AnnouncedStream(h.streams, h.events, i, NO_STREAM);
    hide Queue, Covered, Announced, DialsOk;
  }

  lemma VacatedHistory(h: Host, i: nat)
    requires History(h) && i < |h.streams| && h.streams[i].conn < |h.conns|
    ensures History(Vacated(h, i))
  {
    hide Attempts, Talks;
    TalksStream(h.streams, h.born, h.calls, i, NO_STREAM);
  }

  /** A negotiating outbound stream fails: its open is reported, then the slot is given back. */
  lemma AbandonedStructure(h: Host, i: nat, o: nat, e: Event)
    requires Structure(h) && i < |h.streams| && h.streams[i].state == StreamNegotiating && h.streams[i].open == Some(o)
    ensures o < |h.opens| && h.streams[i].conn < |h.conns| && Structure(Vacated(Evented(h, o, e), i))
  {
    var s := h.streams[i];
    assert StreamOk(h.conns, h.opens, s);
    assert Owns(s, o);
    var w := h.opens[o].(state := OpenEvented);
    var v := h.conns[s.conn].(streamCount := Minus1(h.conns[s.conn].streamCount));
    var streams := h.streams[i := NO_STREAM];
    assert forall j :: 0 <= j < |streams| ==> !Owns(streams[j], o);
    assert OpenOk(h.conns, h.opens[o]);
    LinksStream(h.conns, h.streams, h.opens, i, NO_STREAM);
    LinksOpen(h.conns, streams, h.opens, o, w);
    LinksConn(h.conns, streams, h.opens[o := w], s.conn, v);
    OwnersOpen(h.streams, h.opens, o, w);
    OwnersStream(h.streams, h.opens[o := w], i, NO_STREAM);
    TalliesOpen(h.conns, h.streams, h.opens, h.maxStreams, o, w);
    TalliesTurn(h.conns, h.streams, h.opens[o := w], h.maxStreams, i, NO_STREAM, s.conn, v);
    hide Links, Owners, Tallies;
  }

  /** What host_stream_fail_negotiation comes to when the event fits and the connection is not closed. */
  function Dropped(h: Host, i: nat): Host
    requires i < |h.streams| && h.streams[i].conn < |h.conns|
  {
    var s := h.streams[i];
    if s.outbound && s.open.Some? && s.open.value < |h.opens|
    then
      var o := s.open.value;
      Vacated(Evented(h, o, FailedEvent(h.opens[o].conn, o, h.opens[o].userData)), i)
    else Vacated(h, i)
  }

  lemma FailNegotiationIs(h: Host, i: nat, a: Released)
    requires i < |h.streams| && h.streams[i].state != StreamFree && h.streams[i].conn < |h.conns| && PushFits(h)
    requires !h.conns[h.streams[i].conn].closed
    requires h.streams[i].open.Some? ==> h.streams[i].outbound && h.streams[i].open.value < |h.opens|
    ensures FailNegotiation(h, i, a) == Dropped(h, i)
  {
  }

  lemma DroppedKeeps(h: Host, i: nat)
    requires Inv(h) && PushFits(h) && i < |h.streams| && h.streams[i].state == StreamNegotiating
    ensures h.streams[i].conn < |h.conns| && Inv(Dropped(h, i))
  {
    var s := h.streams[i];
    assert StreamOk(h.conns, h.opens, s);
    if s.open.Some? {
      var o := s.open.value;
      var e := FailedEvent(s.conn, o, h.opens[o].userData);
      AbandonedStructure(h, i, o, e);
      EventedQueued(h, o, e);
      EventedHistory(h, o, e);
      VacatedQueued(Evented(h, o, e), i);
      VacatedHistory(Evented(h, o, e), i);
      LastWordPush(h.events, h.phase, e);
      hide Structure, Queued, History, LastWord;
    } else {
      VacatedStructure(h, i);
      VacatedQueued(h, i);
      VacatedHistory(h, i);
      hide Structure, Queued, History, LastWord;
    }
  }

  lemma FailNegotiationKeeps(h: Host, i: nat, a: Released)
    requires Inv(h) && PushFits(h) && i < |h.streams| && h.streams[i].state == StreamNegotiating
    ensures h.streams[i].conn < |h.conns| && FailNegotiation(h, i, a) == Dropped(h, i) && Inv(Dropped(h, i))
  {
    assert StreamOk(h.conns, h.opens, h.streams[i]);
    FailNegotiationIs(h, i, a);
    DroppedKeeps(h, i);
  }

  /** on_open refused: the callback is on record and the stream is dropped. */
  lemma RefusedKeeps(h: Host, i: nat)
    requires Inv(h) && PushFits(h) && i < |h.streams| && h.streams[i].state == StreamNegotiating
    ensures
      && h.streams[i].conn < |h.conns|
      && Inv(Dropped(h, i).(calls := h.calls + [Call(h.streams[i].id, OnOpen, false)]))
  {
    DroppedKeeps(h, i);
    var d := Dropped(h, i);
    var calls := h.calls + [Call(h.streams[i].id, OnOpen, false)];
    assert d.streams == h.streams[i := NO_STREAM] && d.born == h.born && d.calls == h.calls && d.phase == h.phase;
    TalksCall(h.streams, h.born, h.calls, i, NO_STREAM, Call(h.streams[i].id, OnOpen, false));
    hide Dropped, Attempts, Talks, Structure, Queued, LastWord;
    assert Structure(d.(calls := calls)) && Queued(d.(calls := calls)) by { SameTables(d, calls); }
  }

  lemma SameTables(h: Host, calls: seq<Call>)
    ensures Structure(h) ==> Structure(h.(calls := calls))
    ensures Queued(h) ==> Queued(h.(calls := calls))
  {
    hide Zeroed, Links, Owners, Tallies, Queue, Covered, Announced, DialsOk;
  }
}
