/** How one change to one table affects each part of the invariant. */
module HostTables {
  import opened Bytes
  import opened Host
  import opened HostInv

  // ---------------------------------------------------------------------- links

  lemma LinksStream(conns: seq<Conn>, streams: seq<Stream>, opens: seq<Open>, i: nat, s: Stream)
    requires Links(conns, streams, opens) && i < |streams|
    requires s.state != StreamFree ==> StreamOk(conns, opens, s)
    ensures Links(conns, streams[i := s], opens)
  {
  }

  lemma LinksConn(conns: seq<Conn>, streams: seq<Stream>, opens: seq<Open>, c: nat, v: Conn)
    requires Links(conns, streams, opens) && c < |conns|
    requires conns[c].active ==>
      v.active || (forall i :: 0 <= i < |streams| && streams[i].state != StreamFree ==> streams[i].conn != c)
    requires conns[c].active ==>
      v.active || (forall o :: 0 <= o < |opens| && opens[o].state != OpenFree ==> opens[o].conn != c)
    requires v.closed && !conns[c].closed ==>
      && (forall i :: 0 <= i < |streams| && streams[i].state == StreamNegotiating ==> streams[i].conn != c)
      && (forall o :: 0 <= o < |opens| && opens[o].state != OpenFree && opens[o].conn == c ==>
            opens[o].state == OpenEvented)
    ensures Links(conns[c := v], streams, opens)
  {
  }

  lemma LinksOpen(conns: seq<Conn>, streams: seq<Stream>, opens: seq<Open>, o: nat, v: Open)
    requires Links(conns, streams, opens) && o < |opens|
    requires v.state != OpenFree ==> OpenOk(conns, v)
    requires forall i :: 0 <= i < |streams| && Owns(streams[i], o) ==> StreamOk(conns, opens[o := v], streams[i])
    ensures Links(conns, streams, opens[o := v])
  {
    forall i | 0 <= i < |streams| && streams[i].state != StreamFree
      ensures StreamOk(conns, opens[o := v], streams[i])
    {
      assert StreamOk(conns, opens, streams[i]);
      if streams[i].open == Some(o) { assert Owns(streams[i], o); }
    }
  }

  // --------------------------------------------------------------------- owners

  /** Replacing a stream that owns no negotiating open, or keeping what it owns. */
  lemma OwnersStream(streams: seq<Stream>, opens: seq<Open>, i: nat, s: Stream)
    requires Owners(streams, opens) && i < |streams|
    requires forall o: nat :: Owns(streams[i], o) && o < |opens| && opens[o].state == OpenNegotiating ==> Owns(s, o)
    requires forall o: nat, j :: Owns(s, o) && 0 <= j < |streams| && Owns(streams[j], o) ==> j == i
    ensures Owners(streams[i := s], opens)
  {
    var t := streams[i := s];
    forall o | 0 <= o < |opens| && opens[o].state == OpenNegotiating
      ensures exists k :: 0 <= k < |t| && Owns(t[k], o)
    {
      var k :| 0 <= k < |streams| && Owns(streams[k], o);
      if k == i { assert Owns(t[i], o); } else { assert Owns(t[k], o); }
    }
  }

  lemma OwnersOpen(streams: seq<Stream>, opens: seq<Open>, o: nat, v: Open)
    requires Owners(streams, opens) && o < |opens|
    requires v.state == OpenNegotiating ==> exists i :: 0 <= i < |streams| && Owns(streams[i], o)
    ensures Owners(streams, opens[o := v])
  {
  }

  // ---------------------------------------------------------------------- queue

  lemma QueuePush(conns: seq<Conn>, opens: seq<Open>, events: seq<Event>, e: Event)
    requires Queue(conns, opens, events) && EventOk(conns, opens, e)
    requires e.open.Some? ==> !Carried(events, e.open.value)
    requires e.conn.Some? ==> !CloseQueued(events, e.conn.value)
    ensures Queue(conns, opens, events + [e])
  {
  }

  lemma QueuePop(conns: seq<Conn>, opens: seq<Open>, events: seq<Event>)
    requires Queue(conns, opens, events) && events != []
    ensures Queue(conns, opens, events[1..])
    ensures events[0].open.Some? ==> !Carried(events[1..], events[0].open.value)
    ensures events[0].kind == ConnClosed ==>
      forall k :: 0 <= k < |events[1..]| ==> events[1..][k].conn != events[0].conn
  {
  }

  lemma QueueConn(conns: seq<Conn>, opens: seq<Open>, events: seq<Event>, c: nat, v: Conn)
    requires Queue(conns, opens, events) && c < |conns|
    requires
      || (v.active && v.closed == conns[c].closed && v.closePending == conns[c].closePending)
      || (v.active && v.closed && v.closePending)
      || (forall k :: 0 <= k < |events| ==> events[k].conn != Some(c))
    ensures Queue(conns[c := v], opens, events)
  {
    forall k | 0 <= k < |events| ensures EventOk(conns[c := v], opens, events[k]) {
      assert EventOk(conns, opens, events[k]);
    }
  }

  lemma QueueOpen(conns: seq<Conn>, opens: seq<Open>, events: seq<Event>, o: nat, v: Open)
    requires Queue(conns, opens, events) && o < |opens|
    requires !Carried(events, o)
    ensures Queue(conns, opens[o := v], events)
  {
    forall k | 0 <= k < |events| ensures EventOk(conns, opens[o := v], events[k]) {
      assert EventOk(conns, opens, events[k]);
    }
  }

  // -------------------------------------------------------------------- covered

  lemma {:induction false} CarriedPush(events: seq<Event>, e: Event, o: nat)
    ensures Carried(events + [e], o) <==> Carried(events, o) || e.open == Some(o)
  {
    var t := events + [e];
    if Carried(events, o) {
      var k :| 0 <= k < |events| && events[k].open == Some(o);
      assert t[k].open == Some(o);
    }
    if e.open == Some(o) { assert t[|events|].open == Some(o); }
  }

  lemma CloseQueuedPush(events: seq<Event>, e: Event, c: nat)
    ensures CloseQueued(events + [e], c) <==> CloseQueued(events, c) || (e.kind == ConnClosed && e.conn == Some(c))
  {
    var t := events + [e];
    if CloseQueued(events, c) {
      var k :| 0 <= k < |events| && events[k].kind == ConnClosed && events[k].conn == Some(c);
      assert t[k].kind == ConnClosed && t[k].conn == Some(c);
    }
    if e.kind == ConnClosed && e.conn == Some(c) { assert t[|events|] == e; }
  }

  lemma CoveredPush(conns: seq<Conn>, opens: seq<Open>, events: seq<Event>, e: Event)
    requires Covered(conns, opens, events)
    ensures Covered(conns, opens, events + [e])
  {
    forall o ensures Carried(events, o) ==> Carried(events + [e], o) { CarriedPush(events, e, o); }
    forall c ensures CloseQueued(events, c) ==> CloseQueued(events + [e], c) { CloseQueuedPush(events, e, c); }
  }

  lemma CarriedPop(events: seq<Event>, o: nat)
    requires events != []
    ensures Carried(events, o) <==> events[0].open == Some(o) || Carried(events[1..], o)
  {
    if Carried(events[1..], o) {
      var k :| 0 <= k < |events[1..]| && events[1..][k].open == Some(o);
      assert events[k + 1].open == Some(o);
    }
    if Carried(events, o) && events[0].open != Some(o) {
      var k :| 0 <= k < |events| && events[k].open == Some(o);
      assert events[1..][k - 1].open == Some(o);
    }
  }

  lemma CloseQueuedPop(events: seq<Event>, c: nat)
    requires events != [] && CloseQueued(events, c) && !(events[0].kind == ConnClosed && events[0].conn == Some(c))
    ensures CloseQueued(events[1..], c)
  {
    var k :| 0 <= k < |events| && events[k].kind == ConnClosed && events[k].conn == Some(c);
    assert events[1..][k - 1] == events[k];
  }

  /** Popping uncovers only what the popped event covered; those slots must have moved on. */
  lemma CoveredPop(conns: seq<Conn>, opens: seq<Open>, events: seq<Event>, conns': seq<Conn>, opens': seq<Open>)
    requires Covered(conns, opens, events) && events != [] && |conns'| == |conns| && |opens'| == |opens|
    requires forall o :: 0 <= o < |opens| && opens'[o].state == OpenEvented ==>
      opens[o].state == OpenEvented && events[0].open != Some(o)
    requires forall c :: 0 <= c < |conns| && conns'[c].closePending ==>
      && conns[c].closePending && conns'[c].active && conns'[c].closed
      && !(events[0].kind == ConnClosed && events[0].conn == Some(c))
    ensures Covered(conns', opens', events[1..])
  {
    forall o | 0 <= o < |opens| && opens'[o].state == OpenEvented
      ensures Carried(events[1..], o)
    {
      CarriedPop(events, o);
    }
    forall c | 0 <= c < |conns| && conns'[c].closePending
      ensures CloseQueued(events[1..], c)
    {
      CloseQueuedPop(events, c);
    }
  }

  lemma CoveredOpen(conns: seq<Conn>, opens: seq<Open>, events: seq<Event>, o: nat, v: Open)
    requires Covered(conns, opens, events) && o < |opens| && (v.state == OpenEvented ==> Carried(events, o))
    ensures Covered(conns, opens[o := v], events)
  {
  }

  lemma CoveredConn(conns: seq<Conn>, opens: seq<Open>, events: seq<Event>, c: nat, v: Conn)
    requires Covered(conns, opens, events) && c < |conns|
    requires v.closePending ==> v.active && v.closed && CloseQueued(events, c)
    ensures Covered(conns[c := v], opens, events)
  {
  }

  // ------------------------------------------------------------------ announced

  lemma AnnouncedStream(streams: seq<Stream>, events: seq<Event>, i: nat, s: Stream)
    requires Announced(streams, events) && i < |streams|
    requires s.state == StreamOpen && s.open.Some? ==>
      exists k :: 0 <= k < |events| && Announces(events[k], i, s.open.value)
    ensures Announced(streams[i := s], events)
  {
  }

  lemma AnnouncedPush(streams: seq<Stream>, events: seq<Event>, e: Event)
    requires Announced(streams, events)
    ensures Announced(streams, events + [e])
  {
    var t := events + [e];
    forall i | 0 <= i < |streams| && streams[i].state == StreamOpen && streams[i].open.Some?
      ensures exists k :: 0 <= k < |t| && Announces(t[k], i, streams[i].open.value)
    {
      var k :| 0 <= k < |events| && Announces(events[k], i, streams[i].open.value);
      assert Announces(t[k], i, streams[i].open.value);
    }
  }

  lemma AnnouncedPop(streams: seq<Stream>, events: seq<Event>)
    requires Announced(streams, events) && events != []
    requires forall i :: 0 <= i < |streams| && streams[i].state == StreamOpen && streams[i].open.Some? ==>
      !Announces(events[0], i, streams[i].open.value)
    ensures Announced(streams, events[1..])
  {
    var t := events[1..];
    forall i | 0 <= i < |streams| && streams[i].state == StreamOpen && streams[i].open.Some?
      ensures exists k :: 0 <= k < |t| && Announces(t[k], i, streams[i].open.value)
    {
      var k :| 0 <= k < |events| && Announces(events[k], i, streams[i].open.value);
      assert Announces(t[k - 1], i, streams[i].open.value);
    }
  }

  // -------------------------------------------------------------------- tallies

  lemma TalliesStream(conns: seq<Conn>, streams: seq<Stream>, opens: seq<Open>, m: nat, i: nat, s: Stream)
    requires Tallies(conns, streams, opens, m) && i < |streams|
    requires s.state != StreamFree && streams[i].state != StreamFree && s.conn == streams[i].conn
    ensures Tallies(conns, streams[i := s], opens, m)
  {
    forall c | 0 <= c < |conns| ensures StreamsOn(streams[i := s], c) == StreamsOn(streams, c) {
      StreamsOnUpdate(streams, i, s, c);
    }
  }

  lemma TalliesOpen(conns: seq<Conn>, streams: seq<Stream>, opens: seq<Open>, m: nat, o: nat, v: Open)
    requires Tallies(conns, streams, opens, m) && o < |opens|
    requires v.state != OpenFree && opens[o].state != OpenFree && v.conn == opens[o].conn
    ensures Tallies(conns, streams, opens[o := v], m)
  {
    forall c | 0 <= c < |conns| ensures OpensOn(opens[o := v], c) == OpensOn(opens, c) {
      OpensOnUpdate(opens, o, v, c);
    }
  }

  lemma TalliesConn(conns: seq<Conn>, streams: seq<Stream>, opens: seq<Open>, m: nat, c: nat, v: Conn)
    requires Tallies(conns, streams, opens, m) && c < |conns|
    requires v.streamCount == conns[c].streamCount && v.openCount == conns[c].openCount
    ensures Tallies(conns[c := v], streams, opens, m)
  {
  }

  /** A stream slot is taken or given back together with its connection's count. */
  lemma TalliesTurn(conns: seq<Conn>, streams: seq<Stream>, opens: seq<Open>, m: nat, i: nat, s: Stream, c: nat,
                    v: Conn)
    requires Tallies(conns, streams, opens, m) && i < |streams| && c < |conns|
    requires (streams[i].state == StreamFree && s.state != StreamFree && s.conn == c && conns[c].streamCount < m
                && v.streamCount == conns[c].streamCount + 1)
          || (streams[i].state != StreamFree && streams[i].conn == c && s.state == StreamFree
                && v.streamCount == Minus1(conns[c].streamCount))
    requires v.openCount == conns[c].openCount
    ensures Tallies(conns[c := v], streams[i := s], opens, m)
  {
    var cs, ss := conns[c := v], streams[i := s];
    forall d | 0 <= d < |conns| ensures cs[d].streamCount == StreamsOn(ss, d) <= m {
      StreamsOnUpdate(streams, i, s, d);
    }
  }

  lemma TalliesOpenTurn(conns: seq<Conn>, streams: seq<Stream>, opens: seq<Open>, m: nat, o: nat, w: Open, c: nat,
                        v: Conn)
    requires Tallies(conns, streams, opens, m) && o < |opens| && c < |conns|
    requires (opens[o].state == OpenFree && w.state != OpenFree && w.conn == c && v.openCount == conns[c].openCount + 1)
          || (opens[o].state != OpenFree && opens[o].conn == c && w.state == OpenFree
                && v.openCount == Minus1(conns[c].openCount))
    requires v.streamCount == conns[c].streamCount
    ensures Tallies(conns[c := v], streams, opens[o := w], m)
  {
    var cs, os := conns[c := v], opens[o := w];
    forall d | 0 <= d < |conns| ensures cs[d].openCount == OpensOn(os, d) {
      OpensOnUpdate(opens, o, w, d);
    }
  }

  /** Zero counts mean nothing refers to the connection. */
  lemma {:induction false} NoStreamsOn(ss: seq<Stream>, c: nat, i: nat)
    requires StreamsOn(ss, c) == 0 && i < |ss| && ss[i].state != StreamFree
    ensures ss[i].conn != c
  {
    if i < |ss| - 1 { NoStreamsOn(ss[..|ss| - 1], c, i); }
  }

  lemma {:induction false} NoOpensOn(os: seq<Open>, c: nat, o: nat)
    requires OpensOn(os, c) == 0 && o < |os| && os[o].state != OpenFree
    ensures os[o].conn != c
  {
    if o < |os| - 1 { NoOpensOn(os[..|os| - 1], c, o); }
  }

  // ------------------------------------------------------------------- attempts

  lemma AttemptsKeep(opens: seq<Open>, issued: nat, resolved: seq<nat>, o: nat, v: Open)
    requires Attempts(opens, issued, resolved) && o < |opens|
    requires opens[o].state != OpenFree && v.state != OpenFree && v.id == opens[o].id
    ensures Attempts(opens[o := v], issued, resolved)
  {
    var t := opens[o := v];
    forall x: nat | x < issued ensures x in resolved || Live(t, x) {
      if Live(opens, x) {
        var q :| 0 <= q < |opens| && opens[q].state != OpenFree && opens[q].id == x;
        assert t[q].state != OpenFree && t[q].id == x;
      }
    }
  }

  lemma AttemptsIssue(opens: seq<Open>, issued: nat, resolved: seq<nat>, o: nat, v: Open)
    requires Attempts(opens, issued, resolved) && o < |opens|
    requires opens[o].state == OpenFree && v.state != OpenFree && v.id == issued
    ensures Attempts(opens[o := v], issued + 1, resolved)
  {
    var t := opens[o := v];
    forall x: nat | x < issued + 1 ensures x in resolved || Live(t, x) {
      if x == issued {
        assert t[o].state != OpenFree && t[o].id == x;
      } else if Live(opens, x) {
        var q :| 0 <= q < |opens| && opens[q].state != OpenFree && opens[q].id == x;
        assert t[q].state != OpenFree && t[q].id == x;
      }
    }
  }

  lemma AttemptsResolve(opens: seq<Open>, issued: nat, resolved: seq<nat>, o: nat)
    requires Attempts(opens, issued, resolved) && o < |opens| && opens[o].state != OpenFree
    ensures Attempts(opens[o := NO_OPEN], issued, resolved + [opens[o].id])
  {
    var t, r := opens[o := NO_OPEN], resolved + [opens[o].id];
    forall x: nat | x < issued ensures x in r || Live(t, x) {
      if x != opens[o].id && x !in resolved {
        var q :| 0 <= q < |opens| && opens[q].state != OpenFree && opens[q].id == x;
        assert t[q].state != OpenFree && t[q].id == x;
      }
    }
  }

  // ---------------------------------------------------------------------- talks

  lemma TalksStream(streams: seq<Stream>, born: nat, calls: seq<Call>, i: nat, s: Stream)
    requires Talks(streams, born, calls) && i < |streams|
    requires s.state == StreamFree || (s.state == streams[i].state && s.id == streams[i].id)
    ensures Talks(streams[i := s], born, calls)
  {
  }

  lemma TalksBirth(streams: seq<Stream>, born: nat, calls: seq<Call>, i: nat, s: Stream)
    requires Talks(streams, born, calls) && i < |streams| && streams[i].state == StreamFree
    requires s.state == StreamNegotiating && s.id == born
    ensures Talks(streams[i := s], born + 1, calls)
  {
  }

  lemma TalkStep(calls: seq<Call>, c: Call, id: nat)
    ensures TalkOf(calls + [c], id) == if c.stream == id then NextTalk(TalkOf(calls, id), c) else TalkOf(calls, id)
  {
    assert (calls + [c])[..|calls|] == calls;
  }

  /** A callback about the stream in slot i that its talk allows, after which the slot holds s. */
  lemma TalksCall(streams: seq<Stream>, born: nat, calls: seq<Call>, i: nat, s: Stream, c: Call)
    requires Talks(streams, born, calls) && i < |streams| && streams[i].state != StreamFree && c.stream == streams[i].id
    requires NextTalk(TalkOf(calls, c.stream), c) != Wrong
    requires s.state == StreamFree
      || (s.state == StreamOpen && s.id == c.stream && NextTalk(TalkOf(calls, c.stream), c) == Talking)
    ensures Talks(streams[i := s], born, calls + [c])
  {
    forall id
      ensures TalkOf(calls + [c], id) == if c.stream == id then NextTalk(TalkOf(calls, id), c) else TalkOf(calls, id)
    {
      TalkStep(calls, c, id);
    }
  }
}
