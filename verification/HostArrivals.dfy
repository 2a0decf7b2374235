/** What the transport brings is taken in under its handles, what ends is settled, and a closing host takes nothing. */
module HostArrivals {
  import opened Bytes
  import opened Host
  import opened HostInv
  import opened HostStreams
  import opened HostProofs
  import opened HostOpening
  import opened HostCascade
  import opened HostRuns
  import opened HostClosing

  /** Nothing but slot i of the streams is new. */
  ghost predicate OnlyStream(h: Host, z: Host, i: nat) {
    && i < |h.streams| == |z.streams| && z.events == h.events && z.dials == h.dials
    && forall j :: 0 <= j < |h.streams| && j != i ==> z.streams[j] == h.streams[j]
  }

  /**
    A stream of the peer is taken in exactly when the connection is known and open and below its own limit; no table
    of other connections can keep it out. Otherwise nothing changes.
  */
  lemma IncomingTaken(h: Host, handle: nat, stream: nat, a: Released)
    requires Inv(h) && Enabled(h, LTransport(Incoming(handle, stream), a))
    ensures
      var l := LTransport(Incoming(handle, stream), a);
      var z, c := Apply(h, l), FindConn(h, handle);
      if Usable(h, c) && StreamsOn(h.streams, c) < h.maxStreams
      then exists i: nat :: OnlyStream(h, z, i) && Starts(h, l, z, i) && z.streams[i].conn == c
      else z == h
  {
    hide Inv, FindConn, FreeStream, StreamsOn;
    var l := LTransport(Incoming(handle, stream), a);
    var z, c := Apply(h, l), FindConn(h, handle);
    FoundConn(h, handle);
    if Usable(h, c) {
      SlotRefused(h, c);
      if StreamSlot(h, c).Some? {
        var i := StreamSlot(h, c).value;
        FreeSlot(h, c);
        assert OnlyStream(h, z, i) && Starts(h, l, z, i) && z.streams[i].conn == c;
      }
    }
  }

  lemma FoundConn(h: Host, handle: nat)
    ensures FindConn(h, handle) <= |h.conns|
    ensures FindConn(h, handle) < |h.conns| ==>
      h.conns[FindConn(h, handle)].active && h.conns[FindConn(h, handle)].handle == handle
  {
  }

  lemma FreeSlot(h: Host, c: nat)
    requires c < |h.conns| && StreamSlot(h, c).Some?
    ensures
      var i := StreamSlot(h, c).value;
      i < |h.streams| && h.streams[i].state == StreamFree
  {
  }

  /**
    A connection is taken in exactly when its handle is known or a slot is free, and then CONN_ESTABLISHED names a slot
    with that handle; without a waiting dial for the attempt it carries none, and the transport's user data.
  */
  lemma EstablishedTaken(h: Host, handle: nat, attempt: nat, userData: nat, a: Released)
    requires Inv(h) && Enabled(h, LTransport(Established(handle, attempt, userData), a))
    ensures
      var z := Apply(h, LTransport(Established(handle, attempt, userData), a));
      if FindConn(h, handle) < |h.conns| || (exists c :: 0 <= c < |h.conns| && !h.conns[c].active)
      then exists c: nat, e ::
        && c < |z.conns| == |h.conns| && z.conns[c].active && !z.conns[c].closed && z.conns[c].handle == handle
        && z.events == h.events + [e] && e.kind == ConnEstablished && e.conn == Some(c)
        && (h.conns[c] == z.conns[c] || !h.conns[c].active)
        && (FindDial(h, attempt) == |h.dials| ==> e.dial == None && e.userData == userData)
      else z == h
  {
    hide Inv, FindDial;
    var z := Apply(h, LTransport(Established(handle, attempt, userData), a));
    FoundConn(h, handle);
    var existing := FindConn(h, handle);
    var c := if existing < |h.conns| then existing else FreeConn(h);
    if c < |h.conns| {
      var d := FindDial(h, attempt);
      var e := EvOnDial(ConnEstablished, Some(c), d, h, userData);
      assert z.events == h.events + [e];
      assert z.conns[c].active && z.conns[c].handle == handle;
    }
  }

  lemma SameFree(h: Host, g: Host)
    requires g.streams == h.streams
    ensures FreeStream(g) == FreeStream(h)
  {
  }

  /** An open is accepted exactly for a usable connection, known ids, a free slot, and a transport that gives one. */
  lemma OpenTaken(h: Host, c: nat, known: bool, userData: nat, a: OpenAnswer)
    requires Inv(h) && !h.driving
    ensures
      var l := LOpen(c, known, userData, a);
      var (z, status) := OpenStream(h, c, known, userData, a);
      && (status == Ok <==>
            && h.phase == Started && Usable(h, c) && known && FreeOpen(h) < |h.opens| && a != OpenError
            && (a.Opened? ==> StreamsOn(h.streams, c) < h.maxStreams))
      && (status == Ok && a.Opened? ==> exists i: nat :: OnlyStream(h, z, i) && Starts(h, l, z, i))
      && (status == Ok && a == OpenWouldBlock ==>
            && z.streams == h.streams
            && z.opens == h.opens[FreeOpen(h) := Open(OpenWaiting, c, userData, h.issued)])
  {
    hide Inv, StreamsOn, FreeStream;
    var l := LOpen(c, known, userData, a);
    var (z, status) := OpenStream(h, c, known, userData, a);
    if Usable(h, c) {
      SlotRefused(h, c);
      if FreeOpen(h) < |h.opens| {
        SameFree(h, h.(opens := h.opens[FreeOpen(h) := Open(OpenWaiting, c, userData, h.issued)],
                       conns := h.conns[c := h.conns[c].(openCount := h.conns[c].openCount + 1)]));
      }
      if status == Ok && a.Opened? {
        FreeSlot(h, c);
        var i := StreamSlot(h, c).value;
        assert OnlyStream(h, z, i) && Starts(h, l, z, i);
      }
    }
  }

  /** A waiting open that the transport now has a stream for starts it, or is reported failed at the limit. */
  lemma RetryTaken(h: Host, o: nat, handle: nat)
    requires Inv(h) && Enabled(h, LRetry(o, Opened(handle))) && h.opens[o].state == OpenWaiting
    ensures h.opens[o].conn < |h.conns|
    ensures
      var l := LRetry(o, Opened(handle));
      var z := Apply(h, l);
      if StreamsOn(h.streams, h.opens[o].conn) < h.maxStreams
      then exists i: nat :: OnlyStream(h, z, i) && Starts(h, l, z, i)
      else z == FailOpen(h, o)
  {
    hide StreamsOn, FreeStream, Owners, Tallies, Queued, History, LastWord;
    var c := h.opens[o].conn;
    assert OpenOk(h.conns, h.opens[o]);
    hide Inv;
    SlotRefused(h, c);
    var l := LRetry(o, Opened(handle));
    var z := Apply(h, l);
    if StreamSlot(h, c).Some? {
      FreeSlot(h, c);
      var i := StreamSlot(h, c).value;
      assert OnlyStream(h, z, i) && Starts(h, l, z, i);
    }
  }

  // ------------------------------------------------------------------------ and let go

  /**
    A cancelled open is gone: its slot is free, its stream with it, and it counts as resolved; no event is queued for
    it. That happens exactly for an open that is not reported yet, named by its own user data.
  */
  lemma CancelTaken(h: Host, o: nat, userData: nat, a: Released)
    requires Inv(h)
    ensures
      var (z, status) := Cancel(h, o, userData, a);
      && (status == Ok <==>
            && h.phase != Closed && o < |h.opens| && h.opens[o].userData == userData
            && (h.opens[o].state == OpenWaiting || h.opens[o].state == OpenNegotiating))
      && (status != Ok ==> z == h)
      && (status == Ok ==>
            && z.opens == h.opens[o := NO_OPEN] && z.events == h.events && z.dials == h.dials
            && z.resolved == h.resolved + [h.opens[o].id]
            && (h.opens[o].state == OpenWaiting ==> z.streams == h.streams)
            && (h.opens[o].state == OpenNegotiating ==>
                  OwnerOf(h, o) < |h.streams| && z.streams == h.streams[OwnerOf(h, o) := NO_STREAM]))
  {
    hide Inv, OwnerOf;
    if o < |h.opens| && h.opens[o].state == OpenNegotiating {
      OwnerFound(h, o);
      if h.phase != Closed && h.opens[o].userData == userData {
        CancelFrees(h, o, OwnerOf(h, o), userData, a);
        CancelOpens(h, o, userData, a);
      }
    }
  }

  lemma CancelOpens(h: Host, o: nat, userData: nat, a: Released)
    requires h.phase != Closed && o < |h.opens| && h.opens[o].state == OpenNegotiating
    requires h.opens[o].userData == userData && OwnerOf(h, o) < |h.streams|
    ensures
      var z := Cancel(h, o, userData, a).0;
      && z.opens == h.opens[o := NO_OPEN] && z.events == h.events && z.dials == h.dials
      && z.resolved == h.resolved + [h.opens[o].id]
  {
    hide OwnerOf;
    var i := OwnerOf(h, o);
    var h1 := h.(resolved := h.resolved + [h.opens[o].id], streams := h.streams[i := h.streams[i].(open := None)]);
    DetachedRelease(h1, i, a);
    hide StreamRelease;
  }

  lemma DetachedRelease(h: Host, i: nat, a: Released)
    requires i < |h.streams| && h.streams[i].open == None
    ensures
      var z := StreamRelease(h, i, a);
      z.opens == h.opens && z.events == h.events && z.dials == h.dials && z.resolved == h.resolved
  {
  }

  /** Everything that was going on over the connection has been settled, and CONN_CLOSED is the last word on it. */
  ghost predicate Settled(z: Host, c: nat) {
    && c < |z.conns| && z.conns[c].closed && z.conns[c].closePending
    && z.events != [] && z.events[|z.events| - 1] == Event(ConnClosed, Some(c), None, None, None)
    && (forall o :: 0 <= o < |z.opens| && z.opens[o].state != OpenFree && z.opens[o].conn == c ==>
          z.opens[o].state == OpenEvented)
    && (forall i :: 0 <= i < |z.streams| && z.streams[i].state != StreamFree && z.streams[i].conn == c ==>
          z.streams[i].state == StreamOpen)
  }

  /**
    The end of a connection is taken in: all its opens are reported, its negotiating streams are gone, its open streams
    are to be told, and CONN_CLOSED is queued behind all of that. The end of one that has ended changes nothing.
  */
  lemma EndedTaken(h: Host, handle: nat, attempt: nat, a: Released)
    requires Inv(h) && TransportGate(h) && FindConn(h, handle) < |h.conns|
    ensures
      var z, c := OnEnded(h, handle, attempt, a), FindConn(h, handle);
      if h.conns[c].closed then z == h else Settled(z, c)
  {
    hide Inv, Swept, FailWaiting, FindConn;
    var c := FindConn(h, handle);
    if !h.conns[c].closed {
      FoundConn(h, handle);
      CascadingAtFirst(h, c);
      CascadeKeeps(h, c, a);
      EndedIs(h, handle, attempt, a);
      hide OnEnded;
      SweptClean(h, c, a);
    }
  }

  lemma CascadingAtFirst(h: Host, c: nat)
    requires Inv(h) && TransportGate(h) && Usable(h, c)
    ensures Cascading(h, c)
  {
    hide Inv;
    FewUnevented(h.opens);
  }

  lemma {:induction false} FewUnevented(opens: seq<Open>)
    ensures Unevented(opens) <= |opens|
    decreases |opens|
  {
    if opens != [] { FewUnevented(opens[..|opens| - 1]); }
  }

  lemma SweptClean(h: Host, c: nat, a: Released)
    requires Cascading(h, c)
    ensures c < |Swept(h, c, a).conns| && Settled(Shut(Swept(h, c, a), c), c)
  {
    hide Room, FailWaiting, CloseStreams, Inv;
    FailWaitingKeeps(h, c, 0);
    CloseStreamsKeeps(FailWaiting(h, c, 0), c, 0, a);
    var y := Swept(h, c, a);
    forall o | 0 <= o < |y.opens| && y.opens[o].state != OpenFree && y.opens[o].conn == c
      ensures y.opens[o].state == OpenEvented
    {
      StructureOf(y);
      AllReported(y, c, o);
    }
  }

  lemma StructureOf(h: Host)
    requires Inv(h)
    ensures Structure(h)
  {
    hide Structure, Queued, History, LastWord;
  }

  // ------------------------------------------------------------------------- closing

  /** libp2p_host_close: the host is closing, and every connection up to the first refusal is asked to close. */
  lemma CloseTaken(h: Host, failAt: nat)
    ensures
      var z := CloseHost(h, failAt);
      && z.phase == (if h.phase == Started then Closing else h.phase) && z == h.(phase := z.phase, conns := z.conns)
      && |z.conns| == |h.conns|
      && (forall c: nat :: c < |h.conns| ==>
            z.conns[c] == if h.phase == Started && c < failAt && Usable(h, c) then h.conns[c].(localClose := true)
                          else h.conns[c])
      && (CloseStatus(h, failAt) == Ok && h.phase == Started ==>
            forall c: nat :: c < |h.conns| && Usable(h, c) ==> z.conns[c].localClose)
  {
  }

  /** Once the host has been closed, no dial and no open is ever accepted again. */
  lemma {:induction false} ClosingRefuses(m: Limits, labels: seq<Label>, k: nat, t: nat)
    requires ValidLimits(m) && Run(m, labels).Some? && k < t <= |labels| && labels[k].LClose?
    ensures Past(m, labels, t).phase != Started
    ensures forall ok :: DialStatus(Past(m, labels, t), ok) != Ok
    ensures forall c, known, u, a :: OpenStream(Past(m, labels, t), c, known, u, a).1 != Ok
    decreases t
  {
    hide Run, Past, Inv, Enabled, Apply, OpenStream, DialStatus;
    PastStep(m, labels, t - 1);
    var h, l := Past(m, labels, t - 1), labels[t - 1];
    if t > k + 1 {
      ClosingRefuses(m, labels, k, t - 1);
      NotStartedAgain(h, l);
    } else {
      CloseOnward(h, l);
    }
    RefusedUnlessStarted(Past(m, labels, t));
  }

  lemma NotStartedAgain(h: Host, l: Label)
    requires Inv(h) && Enabled(h, l) && h.phase != Started
    ensures Apply(h, l).phase != Started
  {
    hide Inv, Apply;
    if !l.LComplete? && !l.LClose? { SamePhase(h, l); } else { CloseOnward(h, l); }
  }

  lemma CloseOnward(h: Host, l: Label)
    requires Enabled(h, l) && (l.LClose? || (l.LComplete? && h.phase != Started))
    ensures Apply(h, l).phase != Started
  {
  }

  lemma RefusedUnlessStarted(h: Host)
    requires h.phase != Started
    ensures forall ok :: DialStatus(h, ok) != Ok
    ensures forall c, known, u, a :: OpenStream(h, c, known, u, a).1 != Ok
  {
  }
}
