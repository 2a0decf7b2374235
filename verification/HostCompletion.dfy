/** Completed negotiations, released streams and recycled connections keep the invariant. */
module HostCompletion {
  import opened Bytes
  import opened Host
  import opened HostInv
  import opened HostTables
  import opened HostRelease

  // ------------------------------------------------------ a negotiation completes

  function Opened1(s: Stream): Stream {
    s.(state := StreamOpen, readable := true, writable := true)
  }

  function OpenedEvent(c: nat, i: nat, o: nat, id: nat, userData: nat): Event {
    Event(StreamOpened, Some(c), Some(i), None, Some(o), Some(id), userData)
  }

  lemma PromotedStructure(h: Host, i: nat, o: nat, e: Event)
    requires Structure(h) && i < |h.streams| && h.streams[i].state == StreamNegotiating && h.streams[i].open == Some(o)
    ensures o < |h.opens| && Structure(Evented(h, o, e).(streams := h.streams[i := Opened1(h.streams[i])]))
  {
    var s := h.streams[i];
    assert StreamOk(h.conns, h.opens, s);
    assert Owns(s, o);
    var w := h.opens[o].(state := OpenEvented);
    var empty := h.streams[i := NO_STREAM];
    assert forall j :: 0 <= j < |empty| ==> !Owns(empty[j], o);
    assert OpenOk(h.conns, h.opens[o]);
    LinksStream(h.conns, h.streams, h.opens, i, NO_STREAM);
    LinksOpen(h.conns, empty, h.opens, o, w);
    LinksStream(h.conns, empty, h.opens[o := w], i, Opened1(s));
    assert empty[i := Opened1(s)] == h.streams[i := Opened1(s)];
    OwnersOpen(h.streams, h.opens, o, w);
    OwnersStream(h.streams, h.opens[o := w], i, Opened1(s));
    TalliesOpen(h.conns, h.streams, h.opens, h.maxStreams, o, w);
    TalliesStream(h.conns, h.streams, h.opens[o := w], h.maxStreams, i, Opened1(s));
    hide Links, Owners, Tallies;
  }

  lemma PromotedQueued(h: Host, i: nat, o: nat)
    requires Queued(h) && i < |h.streams| && o < |h.opens|
    requires h.opens[o].state != OpenEvented && h.streams[i].open == Some(o)
    requires h.opens[o].conn < |h.conns| && h.conns[h.opens[o].conn].active && !h.conns[h.opens[o].conn].closed
    ensures Queued(Evented(h, o,
      OpenedEvent(h.opens[o].conn, i, o, h.streams[i].id, h.opens[o].userData)).(
        streams := h.streams[i := Opened1(h.streams[i])]))
  {
    hide Queue, Covered, Announced, DialsOk;
    var e := OpenedEvent(h.opens[o].conn, i, o, h.streams[i].id, h.opens[o].userData);
    EventedQueued(h, o, e);
    var events := h.events + [e];
    assert Announces(events[|h.events|], i, o);
    AnnouncedStream(h.streams, events, i, Opened1(h.streams[i])) by {
      AnnouncedPush(h.streams, h.events, e);
    }
  }

  lemma PromotedHistory(h: Host, i: nat)
    requires History(h) && i < |h.streams| && h.streams[i].state == StreamNegotiating
    ensures History(h.(streams := h.streams[i := Opened1(h.streams[i])],
      calls := h.calls + [Call(h.streams[i].id, OnOpen, true)]))
  {
    TalksCall(h.streams, h.born, h.calls, i, Opened1(h.streams[i]), Call(h.streams[i].id, OnOpen, true));
    hide Attempts, Talks;
  }

  /** What host_stream_complete_negotiation comes to when on_open agrees and the event fits. */
  function Promoted(h: Host, i: nat): Host
    requires i < |h.streams|
  {
    var s := h.streams[i];
    var h1 := if s.outbound && s.open.Some? && s.open.value < |h.opens|
              then Evented(h, s.open.value,
                           OpenedEvent(s.conn, i, s.open.value, s.id, h.opens[s.open.value].userData))
              else h;
    h1.(streams := h.streams[i := Opened1(s)], calls := h.calls + [Call(s.id, OnOpen, true)])
  }

  lemma PromotedKeeps(h: Host, i: nat)
    requires Inv(h) && PushFits(h) && i < |h.streams| && h.streams[i].state == StreamNegotiating
    ensures Inv(Promoted(h, i))
  {
    var s := h.streams[i];
    var calls := h.calls + [Call(s.id, OnOpen, true)];
    assert StreamOk(h.conns, h.opens, s);
    if s.open.Some? {
      var o := s.open.value;
      var e := OpenedEvent(s.conn, i, o, s.id, h.opens[o].userData);
      var h1 := Evented(h, o, e);
      PromotedStructure(h, i, o, e);
      PromotedQueued(h, i, o);
      SameTables(h1.(streams := h.streams[i := Opened1(s)]), calls);
      EventedHistory(h, o, e);
      PromotedHistory(h1, i);
      LastWordPush(h.events, h.phase, e);
      hide Structure, Queued, History, LastWord;
    } else {
      PromotedInbound(h, i);
      SameTables(h.(streams := h.streams[i := Opened1(s)]), calls);
      PromotedHistory(h, i);
      hide Structure, Queued, History, LastWord;
    }
  }

  lemma PromotedInbound(h: Host, i: nat)
    requires Structure(h) && Queued(h) && i < |h.streams|
    requires h.streams[i].state == StreamNegotiating && h.streams[i].open == None
    ensures Structure(h.(streams := h.streams[i := Opened1(h.streams[i])]))
    ensures Queued(h.(streams := h.streams[i := Opened1(h.streams[i])]))
  {
    var s := h.streams[i];
    assert StreamOk(h.conns, h.opens, s);
    LinksStream(h.conns, h.streams, h.opens, i, Opened1(s));
    OwnersStream(h.streams, h.opens, i, Opened1(s));
    TalliesStream(h.conns, h.streams, h.opens, h.maxStreams, i, Opened1(s));
    AnnouncedStream(h.streams, h.events, i, Opened1(s));
    hide Links, Owners, Tallies, Queue, Covered, Announced, DialsOk;
  }

  lemma NegotiateKeeps(h: Host, i: nat, x: Outcome, a: Released)
    requires Inv(h) && PushFits(h) && i < |h.streams|
    ensures Inv(Negotiate(h, i, x, a))
  {
    if h.streams[i].state == StreamNegotiating {
      assert StreamOk(h.conns, h.opens, h.streams[i]);
      hide Inv, CompleteNegotiation, FailNegotiation, Dropped, Promoted;
      match x
      case Unfinished =>
      case Failed => FailNegotiationKeeps(h, i, a);
      case Agreed(onOpen) =>
        if onOpen == Refused {
          RefusedKeeps(h, i);
          RefusedIs(h, i, a);
        } else {
          PromotedKeeps(h, i);
          PromotedIs(h, i, onOpen, a);
        }
    }
  }

  lemma RefusedIs(h: Host, i: nat, a: Released)
    requires i < |h.streams| && h.streams[i].state == StreamNegotiating && h.streams[i].conn < |h.conns| && PushFits(h)
    requires !h.conns[h.streams[i].conn].closed
    requires h.streams[i].open.Some? ==> h.streams[i].outbound && h.streams[i].open.value < |h.opens|
    ensures CompleteNegotiation(h, i, Refused, a) ==
      Dropped(h, i).(calls := h.calls + [Call(h.streams[i].id, OnOpen, false)])
  {
    var s := h.streams[i];
    var h1 := h.(calls := h.calls + [Call(s.id, OnOpen, false)], streams := h.streams[i := s.(state := StreamOpen)]);
    FailNegotiationIs(h1, i, a);
    assert h1.streams[i := NO_STREAM] == h.streams[i := NO_STREAM];
  }

  lemma PromotedIs(h: Host, i: nat, onOpen: CallbackAnswer, a: Released)
    requires i < |h.streams| && PushFits(h) && onOpen != Refused
    ensures CompleteNegotiation(h, i, onOpen, a) == Promoted(h, i)
  {
  }

  // --------------------------------------------------------------- recycling

  /** A recyclable connection is named by no stream, no open and no queued event. */
  lemma Unreferenced(h: Host, c: nat)
    requires Structure(h) && Queued(h) && c < |h.conns| && Recyclable(h.conns[c])
    ensures forall i :: 0 <= i < |h.streams| && h.streams[i].state != StreamFree ==> h.streams[i].conn != c
    ensures forall o :: 0 <= o < |h.opens| && h.opens[o].state != OpenFree ==> h.opens[o].conn != c
    ensures forall k :: 0 <= k < |h.events| ==> h.events[k].conn != Some(c)
  {
    forall i | 0 <= i < |h.streams| && h.streams[i].state != StreamFree ensures h.streams[i].conn != c {
      NoStreamsOn(h.streams, c, i);
    }
    forall o | 0 <= o < |h.opens| && h.opens[o].state != OpenFree ensures h.opens[o].conn != c {
      NoOpensOn(h.opens, c, o);
    }
    forall k | 0 <= k < |h.events| ensures h.events[k].conn != Some(c) {
      assert EventOk(h.conns, h.opens, h.events[k]);
    }
  }

  lemma RecycleKeeps(h: Host, c: nat, a: Released)
    requires Inv(h)
    ensures Inv(TryRecycle(h, c, a))
  {
    if c < |h.conns| && Recyclable(h.conns[c]) && a == ReleasedNow {
      Unreferenced(h, c);
      LinksConn(h.conns, h.streams, h.opens, c, NO_CONN);
      TalliesConn(h.conns, h.streams, h.opens, h.maxStreams, c, NO_CONN);
      QueueConn(h.conns, h.opens, h.events, c, NO_CONN);
      CoveredConn(h.conns, h.opens, h.events, c, NO_CONN);
      hide Links, Owners, Tallies, Queue, Covered, Announced, DialsOk, Attempts, Talks, LastWord;
    }
  }

  /** An open stream is released, and its connection recycled if that was the last thing on it. */
  lemma ReleaseKeeps(h: Host, i: nat, a: Released)
    requires Inv(h) && i < |h.streams| && h.streams[i].state == StreamOpen
    ensures h.streams[i].conn < |h.conns| && StreamRelease(h, i, a) == TryRecycle(Vacated(h, i), h.streams[i].conn, a)
    ensures Inv(StreamRelease(h, i, a))
  {
    assert StreamOk(h.conns, h.opens, h.streams[i]);
    VacatedStructure(h, i);
    VacatedQueued(h, i);
    VacatedHistory(h, i);
    assert Inv(Vacated(h, i)) by { hide Structure, Queued, History, LastWord; }
    RecycleKeeps(Vacated(h, i), h.streams[i].conn, a);
  }
}
