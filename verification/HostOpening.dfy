/** Opening, retrying, accepting and cancelling streams keep the invariant. */
module HostOpening {
  import opened Bytes
  import opened Host
  import opened HostInv
  import opened HostTables
  import opened HostRelease
  import opened HostCompletion

  // ------------------------------------------------------------------- opening

  /** A free open slot starts waiting on a usable connection. */
  function Waiting(h: Host, o: nat, c: nat, userData: nat): Host
    requires o < |h.opens| && c < |h.conns|
  {
    h.(opens := h.opens[o := Open(OpenWaiting, c, userData, h.issued)],
       conns := h.conns[c := h.conns[c].(openCount := h.conns[c].openCount + 1)])
  }

  lemma WaitingStructure(h: Host, o: nat, c: nat, userData: nat)
    requires Structure(h) && o < |h.opens| && h.opens[o].state == OpenFree && Usable(h, c)
    ensures Structure(Waiting(h, o, c, userData))
  {
    hide Links, Owners, Tallies;
    var w := Open(OpenWaiting, c, userData, h.issued);
    var v := h.conns[c].(openCount := h.conns[c].openCount + 1);
    NoOwner(h.conns, h.streams, h.opens, o);
    LinksOpen(h.conns, h.streams, h.opens, o, w);
    LinksConn(h.conns, h.streams, h.opens[o := w], c, v);
    OwnersOpen(h.streams, h.opens, o, w);
    TalliesOpenTurn(h.conns, h.streams, h.opens, h.maxStreams, o, w, c, v);
  }

  lemma WaitingQueued(h: Host, o: nat, c: nat, userData: nat)
    requires Queued(h) && o < |h.opens| && h.opens[o].state == OpenFree && Usable(h, c)
    ensures Queued(Waiting(h, o, c, userData))
  {
    var w := Open(OpenWaiting, c, userData, h.issued);
    var v := h.conns[c].(openCount := h.conns[c].openCount + 1);
    QueueFacts(h.conns, h.opens, h.events, o, c);
    QueueOpen(h.conns, h.opens, h.events, o, w);
    QueueConn(h.conns, h.opens[o := w], h.events, c, v);
    CoveredOpen(h.conns, h.opens, h.events, o, w);
    assert !h.conns[c].closePending;
    CoveredConn(h.conns, h.opens[o := w], h.events, c, v);
    hide Queue, Covered, Announced, DialsOk;
  }

  lemma WaitingKeeps(h: Host, o: nat, c: nat, userData: nat)
    requires Inv(h) && o < |h.opens| && h.opens[o].state == OpenFree && Usable(h, c)
    ensures Inv(Waiting(h, o, c, userData).(issued := h.issued + 1))
  {
    hide Structure, Queued, Attempts, Talks, LastWord;
    var h1 := Waiting(h, o, c, userData);
    WaitingStructure(h, o, c, userData);
    WaitingQueued(h, o, c, userData);
    SameIssue(h1, h.issued + 1);
    AttemptsIssue(h.opens, h.issued, h.resolved, o, h1.opens[o]);
  }

  lemma SameIssue(h: Host, issued: nat)
    ensures Structure(h) ==> Structure(h.(issued := issued))
    ensures Queued(h) ==> Queued(h.(issued := issued))
  {
    hide Zeroed, Links, Owners, Tallies, Queue, Covered, Announced, DialsOk;
  }

  lemma OpenLinked(conns: seq<Conn>, streams: seq<Stream>, opens: seq<Open>, o: nat)
    requires Links(conns, streams, opens) && o < |opens| && opens[o].state != OpenFree
    ensures OpenOk(conns, opens[o])
  {
  }

  lemma StartStructure(h: Host, o: nat, i: nat, handle: nat)
    requires Structure(h) && o < |h.opens| && h.opens[o].state == OpenWaiting
    requires i < |h.streams| && h.streams[i].state == StreamFree
    requires h.opens[o].conn < |h.conns| && h.conns[h.opens[o].conn].streamCount < h.maxStreams
    ensures Structure(StartStream(h, o, i, handle))
  {
    hide Links, Owners, Tallies;
    var c := h.opens[o].conn;
    OpenLinked(h.conns, h.streams, h.opens, o);
    var w := h.opens[o].(state := OpenNegotiating);
    var s := Stream(StreamNegotiating, c, handle, true, Some(o), false, false, false, false, h.born);
    var v := h.conns[c].(streamCount := h.conns[c].streamCount + 1);
    NoOwner(h.conns, h.streams, h.opens, o);
    LinksOpen(h.conns, h.streams, h.opens, o, w);
    LinksStream(h.conns, h.streams, h.opens[o := w], i, s);
    LinksConn(h.conns, h.streams[i := s], h.opens[o := w], c, v);
    OwnersStream(h.streams, h.opens, i, s);
    assert Owns(h.streams[i := s][i], o);
    OwnersOpen(h.streams[i := s], h.opens, o, w);
    TalliesOpen(h.conns, h.streams, h.opens, h.maxStreams, o, w);
    TalliesTurn(h.conns, h.streams, h.opens[o := w], h.maxStreams, i, s, c, v);
  }

  lemma StartQueued(h: Host, o: nat, i: nat, handle: nat)
    requires Queued(h) && o < |h.opens| && h.opens[o].state == OpenWaiting
    requires i < |h.streams| && h.opens[o].conn < |h.conns| && h.conns[h.opens[o].conn].active
    ensures Queued(StartStream(h, o, i, handle))
  {
    var c := h.opens[o].conn;
    var w := h.opens[o].(state := OpenNegotiating);
    var s := Stream(StreamNegotiating, c, handle, true, Some(o), false, false, false, false, h.born);
    var v := h.conns[c].(streamCount := h.conns[c].streamCount + 1);
    QueueFacts(h.conns, h.opens, h.events, o, c);
    QueueOpen(h.conns, h.opens, h.events, o, w);
    QueueConn(h.conns, h.opens[o := w], h.events, c, v);
    CoveredOpen(h.conns, h.opens, h.events, o, w);
    CoveredConn(h.conns, h.opens[o := w], h.events, c, v);
    AnnouncedStream(h.streams, h.events, i, s);
    hide Queue, Covered, Announced, DialsOk;
  }

  lemma StartKeeps(h: Host, o: nat, i: nat, handle: nat)
    requires Inv(h) && o < |h.opens| && h.opens[o].state == OpenWaiting
    requires i < |h.streams| && h.streams[i].state == StreamFree
    requires h.opens[o].conn < |h.conns| && h.conns[h.opens[o].conn].streamCount < h.maxStreams
    ensures Inv(StartStream(h, o, i, handle))
  {
    assert OpenOk(h.conns, h.opens[o]);
    StartStructure(h, o, i, handle);
    StartQueued(h, o, i, handle);
    var z := StartStream(h, o, i, handle);
    AttemptsKeep(h.opens, h.issued, h.resolved, o, z.opens[o]);
    TalksBirth(h.streams, h.born, h.calls, i, z.streams[i]);
    hide Structure, Queued, Attempts, Talks, LastWord;
  }

  /** A call that fails synchronously leaves the tables as they were. */
  lemma OpenUndone(h: Host, o: nat, c: nat, userData: nat)
    requires Zeroed(h.conns, h.streams, h.opens) && o < |h.opens| && h.opens[o].state == OpenFree && c < |h.conns|
    ensures OpenRelease(Waiting(h, o, c, userData), o) == h
  {
    var h1 := Waiting(h, o, c, userData);
    var h2 := OpenRelease(h1, o);
    assert h2.opens == h.opens && h2.conns == h.conns;
  }

  /** The three ways an accepted or refused call leaves the tables. */
  lemma OpenStreamIs(h: Host, c: nat, known: bool, userData: nat, a: OpenAnswer)
    requires Zeroed(h.conns, h.streams, h.opens)
    ensures
      var r := OpenStream(h, c, known, userData, a);
      if r.1 != Ok then r.0 == h
      else
        && h.phase == Started && Usable(h, c) && FreeOpen(h) < |h.opens|
        && var h2 := Waiting(h, FreeOpen(h), c, userData).(issued := h.issued + 1);
           if a == OpenWouldBlock then r.0 == h2
           else
             && a.Opened? && FreeStream(h) < |h.streams| && h.conns[c].streamCount < h.maxStreams
             && r.0 == StartStream(h2, FreeOpen(h), FreeStream(h), a.handle)
  {
    var o := FreeOpen(h);
    if Usable(h, c) && o < |h.opens| {
      OpenUndone(h, o, c, userData);
    }
  }

  lemma OpenStreamKeeps(h: Host, c: nat, known: bool, userData: nat, a: OpenAnswer)
    requires Inv(h)
    ensures Inv(OpenStream(h, c, known, userData, a).0)
    ensures OpenStream(h, c, known, userData, a).1 != Ok ==> OpenStream(h, c, known, userData, a).0 == h
  {
    OpenStreamIs(h, c, known, userData, a);
    hide Inv, OpenStream;
    var o := FreeOpen(h);
    if OpenStream(h, c, known, userData, a).1 == Ok {
      WaitingKeeps(h, o, c, userData);
      var h2 := Waiting(h, o, c, userData).(issued := h.issued + 1);
      if a.Opened? {
        StartKeeps(h2, o, FreeStream(h), a.handle);
      }
    }
  }

  lemma RetryKeeps(h: Host, o: nat, a: OpenAnswer)
    requires Inv(h) && PushFits(h) && o < |h.opens|
    ensures Inv(RetryOpen(h, o, a))
  {
    if h.opens[o].state == OpenWaiting {
      FailOpenKeeps(h, o);
      var c := h.opens[o].conn;
      if a.Opened? && c < |h.conns| && StreamSlot(h, c).Some? {
        StartKeeps(h, o, StreamSlot(h, c).value, a.handle);
      }
      hide Inv;
    }
  }

  lemma IncomingStructure(h: Host, i: nat, c: nat, handle: nat)
    requires Structure(h) && i < |h.streams| && h.streams[i].state == StreamFree && Usable(h, c)
    requires h.conns[c].streamCount < h.maxStreams
    ensures Structure(StreamAlloc(h, i, c, handle, None))
  {
    hide Links, Owners, Tallies;
    var s := Stream(StreamNegotiating, c, handle, false, None, false, false, false, false, h.born);
    var v := h.conns[c].(streamCount := h.conns[c].streamCount + 1);
    LinksStream(h.conns, h.streams, h.opens, i, s);
    LinksConn(h.conns, h.streams[i := s], h.opens, c, v);
    OwnersStream(h.streams, h.opens, i, s);
    TalliesTurn(h.conns, h.streams, h.opens, h.maxStreams, i, s, c, v);
  }

  lemma IncomingQueued(h: Host, i: nat, c: nat, handle: nat)
    requires Queued(h) && i < |h.streams| && Usable(h, c)
    ensures Queued(StreamAlloc(h, i, c, handle, None))
  {
    var z := StreamAlloc(h, i, c, handle, None);
    QueueConn(h.conns, h.opens, h.events, c, z.conns[c]);
    CoveredConn(h.conns, h.opens, h.events, c, z.conns[c]);
    AnnouncedStream(h.streams, h.events, i, z.streams[i]);
    hide Queue, Covered, Announced, DialsOk;
  }

  lemma AcceptedKeeps(h: Host, i: nat, c: nat, handle: nat)
    requires Inv(h) && i < |h.streams| && h.streams[i].state == StreamFree && Usable(h, c)
    requires h.conns[c].streamCount < h.maxStreams
    ensures Inv(StreamAlloc(h, i, c, handle, None))
  {
    hide Structure, Queued, Attempts, Talks, LastWord;
    IncomingStructure(h, i, c, handle);
    IncomingQueued(h, i, c, handle);
    var z := StreamAlloc(h, i, c, handle, None);
    TalksBirth(h.streams, h.born, h.calls, i, z.streams[i]);
  }

  lemma IncomingKeeps(h: Host, handle: nat, stream: nat)
    requires Inv(h)
    ensures Inv(OnIncoming(h, handle, stream).0)
  {
    hide Inv;
    var c := FindConn(h, handle);
    if c < |h.conns| && Usable(h, c) && StreamSlot(h, c).Some? {
      AcceptedKeeps(h, StreamSlot(h, c).value, c, stream);
    }
  }

  // ---------------------------------------------------------------- cancelling

  function Unlisted(h: Host, o: nat): Host
    requires o < |h.opens| && h.opens[o].conn < |h.conns|
  {
    var c := h.opens[o].conn;
    h.(opens := h.opens[o := NO_OPEN],
       conns := h.conns[c := h.conns[c].(openCount := Minus1(h.conns[c].openCount))],
       resolved := h.resolved + [h.opens[o].id])
  }

  lemma UnlistedStructure(h: Host, o: nat)
    requires Structure(h) && o < |h.opens| && h.opens[o].state != OpenFree
    requires forall i :: 0 <= i < |h.streams| ==> !Owns(h.streams[i], o)
    ensures h.opens[o].conn < |h.conns| && Structure(Unlisted(h, o))
  {
    var c := h.opens[o].conn;
    assert OpenOk(h.conns, h.opens[o]);
    var v := h.conns[c].(openCount := Minus1(h.conns[c].openCount));
    LinksOpen(h.conns, h.streams, h.opens, o, NO_OPEN);
    LinksConn(h.conns, h.streams, h.opens[o := NO_OPEN], c, v);
    OwnersOpen(h.streams, h.opens, o, NO_OPEN);
    TalliesOpenTurn(h.conns, h.streams, h.opens, h.maxStreams, o, NO_OPEN, c, v);
    hide Links, Owners, Tallies;
  }

  lemma UnlistedQueued(h: Host, o: nat)
    requires Queued(h) && o < |h.opens| && h.opens[o].state != OpenEvented
    requires h.opens[o].conn < |h.conns| && h.conns[h.opens[o].conn].active
    ensures Queued(Unlisted(h, o))
  {
    var c := h.opens[o].conn;
    var v := h.conns[c].(openCount := Minus1(h.conns[c].openCount));
    QueueFacts(h.conns, h.opens, h.events, o, c);
    QueueOpen(h.conns, h.opens, h.events, o, NO_OPEN);
    QueueConn(h.conns, h.opens[o := NO_OPEN], h.events, c, v);
    CoveredOpen(h.conns, h.opens, h.events, o, NO_OPEN);
    CoveredConn(h.conns, h.opens[o := NO_OPEN], h.events, c, v);
    hide Queue, Covered, Announced, DialsOk;
  }

  lemma UnlistedHistory(h: Host, o: nat)
    requires History(h) && o < |h.opens| && h.opens[o].state != OpenFree && h.opens[o].conn < |h.conns|
    ensures History(Unlisted(h, o))
  {
    hide Attempts, Talks;
    AttemptsResolve(h.opens, h.issued, h.resolved, o);
  }

  lemma CancelWaitingKeeps(h: Host, o: nat, userData: nat, a: Released)
    requires Inv(h) && h.phase != Closed && o < |h.opens| && h.opens[o].state == OpenWaiting
    ensures Inv(Cancel(h, o, userData, a).0)
  {
    if h.opens[o].userData == userData {
      var c := h.opens[o].conn;
      assert OpenOk(h.conns, h.opens[o]);
      NoOwner(h.conns, h.streams, h.opens, o);
      UnlistedStructure(h, o);
      UnlistedQueued(h, o);
      UnlistedHistory(h, o);
      assert Inv(Unlisted(h, o)) by { hide Structure, Queued, History, LastWord; }
      RecycleKeeps(Unlisted(h, o), c, a);
      hide Inv;
    }
  }

  /** The stream a negotiating open is looking for is always there, so the "not found" branch is dead. */
  lemma OwnerFound(h: Host, o: nat)
    requires Inv(h) && o < |h.opens| && h.opens[o].state == OpenNegotiating
    ensures
      var i := OwnerOf(h, o);
      && i < |h.streams| && h.streams[i].state == StreamNegotiating && h.streams[i].open == Some(o)
      && forall j :: 0 <= j < |h.streams| && Owns(h.streams[j], o) ==> j == i
  {
    var j :| 0 <= j < |h.streams| && Owns(h.streams[j], o);
    var i := OwnerOf(h, o);
    assert i <= j;
    assert Owns(h.streams[i], o);
    assert StreamOk(h.conns, h.opens, h.streams[i]);
  }

  lemma CancelledStructure(h: Host, i: nat, o: nat)
    requires Structure(h) && i < |h.streams| && h.streams[i].state == StreamNegotiating && h.streams[i].open == Some(o)
    ensures o < |h.opens| && h.streams[i].conn < |h.conns| && h.opens[o].conn == h.streams[i].conn
    ensures Structure(Unlisted(Vacated(h, i), o))
  {
    var s := h.streams[i];
    assert StreamOk(h.conns, h.opens, s);
    assert Owns(s, o);
    assert OpenOk(h.conns, h.opens[o]);
    var c := s.conn;
    var v := h.conns[c].(streamCount := Minus1(h.conns[c].streamCount));
    var w := v.(openCount := Minus1(v.openCount));
    var streams := h.streams[i := NO_STREAM];
    assert forall j :: 0 <= j < |streams| ==> !Owns(streams[j], o);
    LinksStream(h.conns, h.streams, h.opens, i, NO_STREAM);
    LinksOpen(h.conns, streams, h.opens, o, NO_OPEN);
    LinksConn(h.conns, streams, h.opens[o := NO_OPEN], c, v);
    LinksConn(h.conns[c := v], streams, h.opens[o := NO_OPEN], c, w);
    OwnersOpen(h.streams, h.opens, o, NO_OPEN);
    OwnersStream(h.streams, h.opens[o := NO_OPEN], i, NO_STREAM);
    TalliesTurn(h.conns, h.streams, h.opens, h.maxStreams, i, NO_STREAM, c, v);
    TalliesOpenTurn(h.conns[c := v], streams, h.opens, h.maxStreams, o, NO_OPEN, c, w);
    hide Links, Owners, Tallies;
  }

  lemma CancelledKeeps(h: Host, i: nat, o: nat)
    requires Inv(h) && i < |h.streams| && h.streams[i].state == StreamNegotiating && h.streams[i].open == Some(o)
    ensures o < |h.opens| && h.streams[i].conn < |h.conns| && h.opens[o].conn == h.streams[i].conn
    ensures Inv(Unlisted(Vacated(h, i), o))
  {
    assert StreamOk(h.conns, h.opens, h.streams[i]);
    CancelledStructure(h, i, o);
    VacatedQueued(h, i);
    UnlistedQueued(Vacated(h, i), o);
    VacatedHistory(h, i);
    UnlistedHistory(Vacated(h, i), o);
    hide Structure, Queued, History, LastWord;
  }

  lemma CancelNegotiatingKeeps(h: Host, o: nat, userData: nat, a: Released)
    requires Inv(h) && h.phase != Closed && o < |h.opens| && h.opens[o].state == OpenNegotiating
    ensures Inv(Cancel(h, o, userData, a).0)
    ensures h.opens[o].userData == userData ==> Cancel(h, o, userData, a).1 == Ok
  {
    if h.opens[o].userData == userData {
      OwnerFound(h, o);
      var i := OwnerOf(h, o);
      assert StreamOk(h.conns, h.opens, h.streams[i]);
      CancelledKeeps(h, i, o);
      hide Inv;
      CancelIs(h, o, i, userData, a);
    }
  }

  lemma CancelIs(h: Host, o: nat, i: nat, userData: nat, a: Released)
    requires h.phase != Closed && o < |h.opens|
    requires h.opens[o].state == OpenNegotiating && h.opens[o].userData == userData
    requires i == OwnerOf(h, o) && i < |h.streams| && h.streams[i].conn == h.opens[o].conn < |h.conns|
    requires h.streams[i].state != StreamFree && !h.conns[h.streams[i].conn].closed
    ensures Cancel(h, o, userData, a) == (Unlisted(Vacated(h, i), o), Ok)
  {
    var h1 := h.(resolved := h.resolved + [h.opens[o].id], streams := h.streams[i := h.streams[i].(open := None)]);
    assert h1.streams[i := NO_STREAM] == h.streams[i := NO_STREAM];
    assert StreamRelease(h1, i, a) == Vacated(h, i).(resolved := h1.resolved);
  }
}
