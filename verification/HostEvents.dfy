/** Consuming events keeps the invariant. */
module HostEvents {
  import opened Bytes
  import opened Host
  import opened HostInv
  import opened HostTables
  import opened HostRelease
  import opened HostCompletion
  import opened HostOpening

  // ---------------------------------------------------------- consuming events

  lemma DialsPop(dials: seq<Dial>, events: seq<Event>)
    requires DialsOk(dials, events) && events != []
    ensures
      var d := events[0].dial;
      DialsOk(if d.Some? && d.value < |dials| then dials[d.value := dials[d.value].(state := DialFree)]
        else dials, events[1..])
  {
    var t := events[1..];
    forall x | 0 <= x < |dials| && dials[x].state == DialEvented
      && events[0].dial != Some(x) ensures DialCarried(t, x) {
      var k :| 0 <= k < |events| && events[k].dial == Some(x);
      assert t[k - 1].dial == Some(x);
    }
  }

  /** Once its event is popped, no stream but the one it names can still point at the open. */
  lemma OnlyAnnounced(h: Host, o: nat, i: nat)
    requires Structure(h) && Queued(h) && h.events != [] && h.events[0].open == Some(o)
    requires i < |h.streams| && Owns(h.streams[i], o)
    ensures h.events[0].kind == StreamOpened && h.events[0].stream == Some(i) && h.streams[i].state == StreamOpen
  {
    assert EventOk(h.conns, h.opens, h.events[0]);
    assert StreamOk(h.conns, h.opens, h.streams[i]);
    var k :| 0 <= k < |h.events| && Announces(h.events[k], i, h.streams[i].open.value);
    assert k == 0;
  }

  /** The stream table after its open attempt has been reported to the caller. */
  function Detached(streams: seq<Stream>, e: Event, o: nat): seq<Stream> {
    if e.kind == StreamOpened && e.stream.Some? && e.stream.value < |streams| && streams[e.stream.value].open == Some(o)
    then streams[e.stream.value := streams[e.stream.value].(open := None)] else streams
  }

  lemma DetachedStructure(h: Host, o: nat)
    requires Structure(h) && Queued(h) && h.events != [] && h.events[0].open == Some(o)
    ensures o < |h.opens| && h.opens[o].state == OpenEvented && h.opens[o].conn < |h.conns|
    ensures Structure(Unlisted(h.(streams := Detached(h.streams, h.events[0], o)), o))
  {
    var e := h.events[0];
    assert EventOk(h.conns, h.opens, e);
    var streams := Detached(h.streams, e, o);
    forall i | 0 <= i < |streams| ensures !Owns(streams[i], o) {
      if Owns(h.streams[i], o) { OnlyAnnounced(h, o, i); }
    }
    if streams != h.streams {
      var i := e.stream.value;
      var s := h.streams[i].(open := None);
      assert h.streams[i].state != StreamFree;
      OnlyAnnounced(h, o, i);
      assert StreamOk(h.conns, h.opens, h.streams[i]);
      LinksStream(h.conns, h.streams, h.opens, i, s);
      OwnersStream(h.streams, h.opens, i, s);
      TalliesStream(h.conns, h.streams, h.opens, h.maxStreams, i, s);
    }
    assert Structure(h.(streams := streams)) by { hide Links, Owners, Tallies; }
    UnlistedStructure(h.(streams := streams), o);
  }

  lemma DetachedQueued(h: Host, o: nat)
    requires Structure(h) && Queued(h) && h.events != [] && h.events[0].open == Some(o)
    requires o < |h.opens| && h.opens[o].conn < |h.conns|
    ensures
      var z := Unlisted(h.(streams := Detached(h.streams, h.events[0], o)), o);
      && Queue(z.conns, z.opens, h.events[1..]) && Covered(z.conns, z.opens, h.events[1..])
      && Announced(z.streams, h.events[1..])
  {
    var e := h.events[0];
    var c := h.opens[o].conn;
    assert EventOk(h.conns, h.opens, e);
    var v := h.conns[c].(openCount := Minus1(h.conns[c].openCount));
    QueuePop(h.conns, h.opens, h.events);
    QueueOpen(h.conns, h.opens, h.events[1..], o, NO_OPEN);
    QueueConn(h.conns, h.opens[o := NO_OPEN], h.events[1..], c, v);
    CoveredPop(h.conns, h.opens, h.events, h.conns[c := v], h.opens[o := NO_OPEN]);
    var streams := Detached(h.streams, e, o);
    if streams != h.streams {
      AnnouncedStream(h.streams, h.events, e.stream.value, streams[e.stream.value]);
    }
    AnnouncedPop(streams, h.events);
  }

  lemma DetachedTalks(h: Host, e: Event, o: nat)
    requires Talks(h.streams, h.born, h.calls)
    ensures Talks(Detached(h.streams, e, o), h.born, h.calls)
  {
    var streams := Detached(h.streams, e, o);
    if streams != h.streams {
      TalksStream(h.streams, h.born, h.calls, e.stream.value, streams[e.stream.value]);
    }
  }

  lemma LastWordPop(events: seq<Event>, phase: Phase)
    requires LastWord(events, phase) && events != []
    ensures LastWord(events[1..], phase)
  {
  }

  /** What next_event does to the tables when the event carries an open. */
  function PoppedOpen(h: Host, o: nat): Host
    requires h.events != [] && o < |h.opens| && h.opens[o].conn < |h.conns|
  {
    var e := h.events[0];
    var d := e.dial;
    Unlisted(h.(streams := Detached(h.streams, e, o)), o).(
      events := h.events[1..],
      dials := if d.Some? && d.value < |h.dials| then h.dials[d.value := h.dials[d.value].(state := DialFree)]
        else h.dials)
  }

  lemma PoppedOpenKeeps(h: Host, o: nat)
    requires Inv(h) && h.events != [] && h.events[0].open == Some(o)
    ensures o < |h.opens| && h.opens[o].conn < |h.conns| && Inv(PoppedOpen(h, o))
  {
    DetachedStructure(h, o);
    DetachedQueued(h, o);
    DialsPop(h.dials, h.events);
    DetachedTalks(h, h.events[0], o);
    AttemptsResolve(h.opens, h.issued, h.resolved, o);
    LastWordPop(h.events, h.phase);
    hide Links, Owners, Tallies, Queue, Covered, Announced, DialsOk, Attempts, Talks, LastWord, Detached;
  }

  /** What it does when the event carries none: at most a dial slot is freed. */
  function PoppedPlain(h: Host): Host
    requires h.events != []
  {
    var d := h.events[0].dial;
    h.(events := h.events[1..],
       dials := if d.Some? && d.value < |h.dials| then h.dials[d.value := h.dials[d.value].(state := DialFree)]
         else h.dials)
  }

  lemma PoppedPlainKeeps(h: Host)
    requires Inv(h) && h.events != [] && h.events[0].open == None && h.events[0].kind != ConnClosed
    ensures Inv(PoppedPlain(h))
  {
    QueuePop(h.conns, h.opens, h.events);
    CoveredPop(h.conns, h.opens, h.events, h.conns, h.opens);
    AnnouncedPop(h.streams, h.events);
    DialsPop(h.dials, h.events);
    LastWordPop(h.events, h.phase);
    hide Zeroed, Links, Owners, Tallies, Queue, Covered, Announced, DialsOk, Attempts, Talks, LastWord;
  }

  function PoppedClose(h: Host, c: nat): Host
    requires h.events != [] && c < |h.conns|
  {
    PoppedPlain(h).(conns := h.conns[c := h.conns[c].(closePending := false)])
  }

  lemma PoppedCloseQueued(h: Host, c: nat)
    requires Queued(h) && h.events != [] && h.events[0].kind == ConnClosed && h.events[0].conn == Some(c)
    ensures c < |h.conns| && h.conns[c].active && h.conns[c].closed && Queued(PoppedClose(h, c))
  {
    assert EventOk(h.conns, h.opens, h.events[0]);
    var v := h.conns[c].(closePending := false);
    QueuePop(h.conns, h.opens, h.events);
    QueueConn(h.conns, h.opens, h.events[1..], c, v);
    CoveredPop(h.conns, h.opens, h.events, h.conns[c := v], h.opens);
    AnnouncedPop(h.streams, h.events);
    DialsPop(h.dials, h.events);
    hide Queue, Covered, Announced, DialsOk;
  }

  lemma PoppedCloseStructure(h: Host, c: nat)
    requires Structure(h) && h.events != [] && c < |h.conns| && h.conns[c].active
    ensures Structure(PoppedClose(h, c))
  {
    hide Links, Owners, Tallies;
    var v := h.conns[c].(closePending := false);
    LinksConn(h.conns, h.streams, h.opens, c, v);
    TalliesConn(h.conns, h.streams, h.opens, h.maxStreams, c, v);
  }

  lemma PoppedCloseKeeps(h: Host, c: nat)
    requires Inv(h) && h.events != [] && h.events[0].kind == ConnClosed && h.events[0].conn == Some(c)
    ensures c < |h.conns| && Inv(PoppedClose(h, c))
  {
    hide Structure, Queued, Attempts, Talks, LastWord;
    PoppedCloseQueued(h, c);
    PoppedCloseStructure(h, c);
    LastWordPop(h.events, h.phase);
  }

  lemma NextOpenUnfold(h: Host, a: Released, o: nat)
    requires h.events != [] && h.events[0].open == Some(o) && h.events[0].kind != ConnClosed
    requires o < |h.opens| && h.opens[o].state != OpenFree && h.opens[o].conn < |h.conns|
    requires !Recyclable(h.conns[h.opens[o].conn].(openCount := Minus1(h.conns[h.opens[o].conn].openCount)))
    ensures NextEvent(h, a) == PoppedOpen(h, o)
  {
  }

  lemma NextCloseUnfold(h: Host, a: Released, c: nat)
    requires h.events != [] && h.events[0].open == None && h.events[0].kind == ConnClosed
    requires h.events[0].conn == Some(c) && c < |h.conns|
    ensures NextEvent(h, a) == TryRecycle(PoppedClose(h, c), c, a)
  {
  }

  lemma NextPlainUnfold(h: Host, a: Released)
    requires h.events != [] && h.events[0].open == None && h.events[0].kind != ConnClosed
    ensures NextEvent(h, a) == PoppedPlain(h)
  {
  }

  /** When the event carrying an open is consumed, its connection is not yet recyclable. */
  lemma NextEventIs(h: Host, a: Released)
    requires Inv(h) && h.events != []
    ensures
      var e := h.events[0];
      if e.open.Some? then
        && e.open.value < |h.opens| && h.opens[e.open.value].conn < |h.conns|
        && NextEvent(h, a) == PoppedOpen(h, e.open.value)
      else if e.kind == ConnClosed then
        && e.conn.Some? && e.conn.value < |h.conns|
        && NextEvent(h, a) == TryRecycle(PoppedClose(h, e.conn.value), e.conn.value, a)
      else NextEvent(h, a) == PoppedPlain(h)
  {
    var e := h.events[0];
    assert EventOk(h.conns, h.opens, e);
    assert e.open.Some? ==> OpenOk(h.conns, h.opens[e.open.value]);
    hide NextEvent, TryRecycle, PoppedOpen, PoppedClose, PoppedPlain, Inv;
    if e.open.Some? { NextOpenUnfold(h, a, e.open.value); }
    else if e.kind == ConnClosed { NextCloseUnfold(h, a, e.conn.value); }
    else { NextPlainUnfold(h, a); }
  }

  lemma OpenStatusUnfold(h: Host, a: Released, o: nat)
    requires h.events != [] && h.events[0].open == Some(o) && h.events[0].kind != ConnClosed
    requires o < |h.opens| && h.opens[o].state != OpenFree && h.opens[o].conn < |h.conns|
    requires !Recyclable(h.conns[h.opens[o].conn].(openCount := Minus1(h.conns[h.opens[o].conn].openCount)))
    ensures NextEventStatus(h, a) == Ok
  {
    hide Resolve, Recyclable;
  }

  lemma OtherStatusUnfold(h: Host, a: Released)
    requires h.events != [] && h.events[0].open == None
    ensures
      var e := h.events[0];
      NextEventStatus(h, a) ==
        if e.kind == ConnClosed && e.conn.Some? && e.conn.value < |h.conns|
          && Recyclable(h.conns[e.conn.value].(closePending := false)) && a == ReleaseError
        then ErrTransport else Ok
  {
    hide Recyclable;
  }

  /**
    Consuming an event fails exactly when it is the CONN_CLOSED of a connection that nothing else is left of and the
    transport cannot release it; an event that carries an open always succeeds.
  */
  lemma NextEventFails(h: Host, a: Released)
    requires Inv(h) && h.events != []
    ensures
      var e := h.events[0];
      NextEventStatus(h, a) ==
        if e.kind == ConnClosed && e.conn.Some? && e.conn.value < |h.conns| && a == ReleaseError
          && h.conns[e.conn.value].streamCount == 0 && h.conns[e.conn.value].openCount == 0
        then ErrTransport else Ok
  {
    hide NextEventStatus, Zeroed, Owners, Tallies, Covered, Announced, DialsOk, Attempts, Talks, LastWord;
    var e := h.events[0];
    assert EventOk(h.conns, h.opens, e);
    if e.open.Some? {
      assert OpenOk(h.conns, h.opens[e.open.value]);
      OpenStatusUnfold(h, a, e.open.value);
    } else {
      OtherStatusUnfold(h, a);
    }
  }

  lemma NextEventKeeps(h: Host, a: Released)
    requires Inv(h) && h.events != []
    ensures Inv(NextEvent(h, a))
  {
    hide NextEvent;
    NextEventIs(h, a);
    var e := h.events[0];
    if e.open.Some? {
      PoppedOpenKeeps(h, e.open.value);
    } else if e.kind == ConnClosed {
      PoppedCloseKeeps(h, e.conn.value);
      RecycleKeeps(PoppedClose(h, e.conn.value), e.conn.value, a);
    } else {
      PoppedPlainKeeps(h);
    }
  }
}
