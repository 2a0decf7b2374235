/** The life cycle of a connection slot, step by step. */
module HostLife {
  import opened Bytes
  import opened Host
  import opened HostInv
  import opened HostEvents

  datatype Stage = Unused | Up | ClosedUnread | ClosedRead

  /** ClosedUnread: the transport closed it and its CONN_CLOSED has not been consumed. */
  function StageOf(v: Conn): Stage {
    if !v.active then Unused else if !v.closed then Up else if v.closePending then ClosedUnread else ClosedRead
  }

  /** The one move a slot makes on its own: read to the end, then recycled. */
  ghost predicate CalmSlot(v: Conn, v': Conn) {
    && (v'.active == v.active ==> v'.closed == v.closed && v'.closePending == v.closePending && v'.handle == v.handle)
    && (v'.active != v.active ==> StageOf(v) == ClosedRead && v' == NO_CONN)
  }

  ghost predicate Calm(cs: seq<Conn>, cs': seq<Conn>) {
    |cs'| == |cs| && forall c :: 0 <= c < |cs| ==> CalmSlot(cs[c], cs'[c])
  }

  lemma CalmThen(a: seq<Conn>, b: seq<Conn>, c: seq<Conn>)
    requires Calm(a, b) && Calm(b, c)
    requires forall k :: 0 <= k < |a| && a[k].active && !b[k].active ==> c[k] == NO_CONN
    ensures Calm(a, c)
  {
  }

  lemma CalmRecycle(h: Host, c: nat, a: Released)
    ensures Calm(h.conns, TryRecycle(h, c, a).conns)
  {
  }

  lemma CalmOpenRelease(h: Host, o: nat)
    ensures Calm(h.conns, OpenRelease(h, o).conns)
    ensures forall k :: 0 <= k < |h.conns| && h.conns[k] == NO_CONN ==> OpenRelease(h, o).conns[k] == NO_CONN
  {
  }

  /** Nothing changes hands. */
  ghost predicate Still(cs: seq<Conn>, cs': seq<Conn>) {
    Calm(cs, cs') && forall k :: 0 <= k < |cs| ==> cs'[k].active == cs[k].active
  }

  lemma StillSet(h: Host, c: nat, v: Conn)
    requires c < |h.conns| ==> v == h.conns[c].(streamCount := v.streamCount, openCount := v.openCount)
    ensures Still(h.conns, SetConn(h, c, v).conns)
  {
  }

  lemma StillOpenRelease(h: Host, o: nat)
    ensures Still(h.conns, OpenRelease(h, o).conns)
  {
  }

  lemma StillThenRecycle(cs: seq<Conn>, h: Host, c: nat, a: Released)
    requires Still(cs, h.conns)
    ensures Calm(cs, TryRecycle(h, c, a).conns)
    ensures c < |cs| && StageOf(cs[c]) == Up ==> Still(cs, TryRecycle(h, c, a).conns)
    ensures forall k :: 0 <= k < |cs| && !cs[k].active ==> TryRecycle(h, c, a).conns[k] == h.conns[k]
  {
  }

  lemma StreamReleaseIs(h: Host, i: nat, a: Released)
    requires i < |h.streams| && h.streams[i].state != StreamFree
    ensures
      var s := h.streams[i];
      var v := ConnAt(h, s.conn);
      var h1 := SetConn(h, s.conn, v.(streamCount := Minus1(v.streamCount)));
      var h2 := if s.open.Some? && s.open.value < |h.opens| && h.opens[s.open.value].state != OpenEvented
                then OpenRelease(h1, s.open.value) else h1;
      StreamRelease(h, i, a).conns == TryRecycle(h2, s.conn, a).conns
  {
  }

  lemma CalmStreamRelease(h: Host, i: nat, a: Released)
    ensures Calm(h.conns, StreamRelease(h, i, a).conns)
    ensures i < |h.streams| && h.streams[i].conn < |h.conns| && StageOf(h.conns[h.streams[i].conn]) == Up ==>
      Still(h.conns, StreamRelease(h, i, a).conns)
    ensures forall k :: 0 <= k < |h.conns| && h.conns[k] == NO_CONN ==> StreamRelease(h, i, a).conns[k] == NO_CONN
  {
    if i < |h.streams| && h.streams[i].state != StreamFree {
      var s := h.streams[i];
      var v := ConnAt(h, s.conn);
      var w := v.(streamCount := Minus1(v.streamCount));
      var h1 := SetConn(h, s.conn, w);
      var h2 := if s.open.Some? && s.open.value < |h.opens| && h.opens[s.open.value].state != OpenEvented
                then OpenRelease(h1, s.open.value) else h1;
      StreamReleaseIs(h, i, a);
      StillSet(h, s.conn, w);
      CalmOpenRelease(h1, if s.open.Some? then s.open.value else 0);
      StillOpenRelease(h1, if s.open.Some? then s.open.value else 0);
      assert forall k :: 0 <= k < |h.conns| && h.conns[k] == NO_CONN ==> h1.conns[k] == NO_CONN;
      hide StreamRelease, OpenRelease, SetConn, TryRecycle;
      StillThenRecycle(h.conns, h2, s.conn, a);
    }
  }

  lemma CalmFailOpen(h: Host, o: nat)
    requires o < |h.opens|
    ensures Still(h.conns, FailOpen(h, o).conns)
  {
  }

  lemma CalmFailNegotiation(h: Host, i: nat, a: Released)
    requires i < |h.streams|
    ensures Calm(h.conns, FailNegotiation(h, i, a).conns)
    ensures h.streams[i].conn < |h.conns| && StageOf(h.conns[h.streams[i].conn]) == Up ==>
      Still(h.conns, FailNegotiation(h, i, a).conns)
  {
    var s := h.streams[i];
    if s.outbound && s.open.Some? && s.open.value < |h.opens| {
      CalmFailOpen(h, s.open.value);
      CalmStreamRelease(FailOpen(h, s.open.value), i, a);
      assert FailOpen(h, s.open.value).streams == h.streams;
      hide FailOpen, StreamRelease;
      CalmThen(h.conns, FailOpen(h, s.open.value).conns, FailNegotiation(h, i, a).conns);
    } else {
      CalmStreamRelease(h, i, a);
    }
  }

  lemma CalmComplete(h: Host, i: nat, onOpen: CallbackAnswer, a: Released)
    requires i < |h.streams|
    ensures Calm(h.conns, CompleteNegotiation(h, i, onOpen, a).conns)
  {
    if onOpen == Refused {
      var s := h.streams[i];
      CalmFailNegotiation(
        h.(calls := h.calls + [Call(s.id, OnOpen, false)], streams := h.streams[i := s.(state := StreamOpen)]), i, a);
      hide FailNegotiation;
    }
  }

  lemma CalmDeliver(h: Host, i: nat, x: CallbackAnswer, a: Released)
    requires i < |h.streams|
    ensures Calm(h.conns, Deliver(h, i, x, a).conns)
  {
    hide StreamRelease;
    var s := h.streams[i];
    if s.reset { CalmCall(h, i, s.(reset := false), OnReset, x, a); }
    else if s.closed {
      CalmCall(h, i, s.(closed := false), OnClosed, x, a);
      var z := CallEvent(h, i, s.(closed := false), OnClosed, x, a);
      CalmStreamRelease(z, i, a);
      CalmThen(h.conns, z.conns, StreamRelease(z, i, a).conns);
    }
    else if s.readable { CalmCall(h, i, s.(readable := false), OnReadable, x, a); }
    else { CalmCall(h, i, s.(writable := false), OnWritable, x, a); }
  }

  lemma CalmCall(h: Host, i: nat, s: Stream, kind: Callback, x: CallbackAnswer, a: Released)
    requires i < |h.streams|
    ensures Calm(h.conns, CallEvent(h, i, s, kind, x, a).conns)
  {
    hide StreamRelease;
    CalmStreamRelease(h.(streams := h.streams[i := s], calls := h.calls + [Call(s.id, kind, x == Accepted)]), i, a);
  }

  lemma CalmOpenStream(h: Host, c: nat, known: bool, userData: nat, a: OpenAnswer)
    ensures Calm(h.conns, OpenStream(h, c, known, userData, a).0.conns)
  {
  }

  lemma CalmRetry(h: Host, o: nat, a: OpenAnswer)
    requires o < |h.opens|
    ensures Calm(h.conns, RetryOpen(h, o, a).conns)
  {
    hide FailOpen;
    CalmFailOpen(h, o);
  }

  lemma CalmCancel(h: Host, o: nat, userData: nat, a: Released)
    ensures Calm(h.conns, Cancel(h, o, userData, a).0.conns)
  {
    if h.phase != Closed && o < |h.opens| && h.opens[o].userData == userData {
      var c := h.opens[o].conn;
      var h0 := h.(resolved := h.resolved + [h.opens[o].id]);
      var i := OwnerOf(h, o);
      var h2 := if h.opens[o].state == OpenWaiting || i == |h.streams| then h0
                else StreamRelease(h0.(streams := h.streams[i := h.streams[i].(open := None)]), i, a);
      if h.opens[o].state != OpenWaiting && i < |h.streams| {
        CalmStreamRelease(h0.(streams := h.streams[i := h.streams[i].(open := None)]), i, a);
      }
      hide StreamRelease;
      CalmRelisted(h.conns, h2, o, c, a);
    }
  }

  /** Giving back an open slot and then trying to recycle, behind calm steps. */
  lemma CalmRelisted(cs: seq<Conn>, h: Host, o: nat, c: nat, a: Released)
    requires Calm(cs, h.conns)
    ensures Calm(cs, TryRecycle(OpenRelease(h, o), c, a).conns)
  {
    hide OpenRelease;
    CalmOpenRelease(h, o);
    CalmThen(cs, h.conns, OpenRelease(h, o).conns);
    CalmRecycle(OpenRelease(h, o), c, a);
    CalmThen(cs, OpenRelease(h, o).conns, TryRecycle(OpenRelease(h, o), c, a).conns);
  }

  // ------------------------------------------------------------------ the cascade

  lemma {:induction false} CalmFailWaiting(h: Host, c: nat, o: nat)
    ensures Still(h.conns, FailWaiting(h, c, o).conns)
    decreases |h.opens| - o
  {
    if o < |h.opens| {
      if h.opens[o].state == OpenWaiting && h.opens[o].conn == c {
        CalmFailOpen(h, o);
        hide FailOpen;
        if PushFits(h) { CalmFailWaiting(FailOpen(h, o), c, o + 1); }
      } else {
        CalmFailWaiting(h, c, o + 1);
      }
    }
  }

  lemma CalmCloseStream(h: Host, c: nat, i: nat, a: Released)
    requires i < |h.streams| && c < |h.conns| && StageOf(h.conns[c]) == Up
    ensures Still(h.conns, CloseStream(h, c, i, a).conns)
  {
    hide FailNegotiation;
    CalmFailNegotiation(h, i, a);
  }

  /** The closing connection is still up, so nothing is recycled. */
  lemma {:induction false} CalmCloseStreams(h: Host, c: nat, i: nat, a: Released)
    requires c < |h.conns| && StageOf(h.conns[c]) == Up
    ensures Still(h.conns, CloseStreams(h, c, i, a).conns)
    decreases |h.streams| - i
  {
    if i < |h.streams| {
      var z := CloseStream(h, c, i, a);
      CalmCloseStream(h, c, i, a);
      hide CloseStream;
      if z.lost == h.lost { CalmCloseStreams(z, c, i + 1, a); }
    }
  }

  // --------------------------------------------------------------------- theorems

  /** What a step may do to a slot: come up, close, be read, be recycled, each for one reason only. */
  ghost predicate Moves(h: Host, l: Label, c: nat, s: Stage, s': Stage) {
    || s' == s
    || (s == Unused && s' == Up && l.LTransport? && l.event.Established?)
    || (s == Up && s' == ClosedUnread && l.LTransport? && l.event.Ended?)
    || (s == ClosedUnread && (s' == ClosedRead || s' == Unused) && l.LNextEvent? && h.events != []
        && h.events[0].kind == ConnClosed && h.events[0].conn == Some(c))
    || (s == ClosedRead && s' == Unused)
  }

  lemma CalmMoves(h: Host, l: Label, z: Host, c: nat)
    requires Calm(h.conns, z.conns) && c < |h.conns|
    ensures Moves(h, l, c, StageOf(h.conns[c]), StageOf(z.conns[c]))
  {
  }

  lemma DialFailedMoves(h: Host, attempt: nat)
    ensures OnDialFailed(h, attempt).conns == h.conns
  {
  }

  lemma EndedMoves(h: Host, handle: nat, attempt: nat, a: Released, c: nat)
    requires c < |h.conns|
    ensures
      var z := OnEnded(h, handle, attempt, a);
      |z.conns| == |h.conns|
        && Moves(h, LTransport(Ended(handle, attempt), a), c, StageOf(h.conns[c]), StageOf(z.conns[c]))
  {
    hide FailWaiting, CloseStreams, OnDialFailed;
    DialFailedMoves(h, attempt);
    var d := FindConn(h, handle);
    if d < |h.conns| && !h.conns[d].closed {
      var h0 := FailWaiting(h, d, 0);
      CalmFailWaiting(h, d, 0);
      CalmCloseStreams(h0, d, 0, a);
    }
  }

  lemma EstablishedMoves(h: Host, handle: nat, attempt: nat, userData: nat, a: Released, c: nat)
    requires c < |h.conns|
    ensures
      var z := OnEstablished(h, handle, attempt, userData).0;
      && |z.conns| == |h.conns|
      && Moves(h, LTransport(Established(handle, attempt, userData), a), c, StageOf(h.conns[c]), StageOf(z.conns[c]))
  {
  }

  lemma NextEventMoves(h: Host, a: Released, c: nat)
    requires Inv(h) && h.events != [] && c < |h.conns|
    ensures
      var z := NextEvent(h, a);
      |z.conns| == |h.conns| && Moves(h, LNextEvent(a), c, StageOf(h.conns[c]), StageOf(z.conns[c]))
  {
    NextEventIs(h, a);
    var e := h.events[0];
    assert e.kind == ConnClosed ==>
      e.conn.Some? && e.conn.value < |h.conns| && StageOf(h.conns[e.conn.value]) == ClosedUnread by {
      assert EventOk(h.conns, h.opens, e);
    }
    hide Inv, NextEvent;
    if e.open.Some? {
      PoppedOpenCalm(h, e.open.value);
      CalmMoves(h, LNextEvent(a), NextEvent(h, a), c);
    } else if e.kind == ConnClosed {
      PoppedCloseMoves(h, e.conn.value, a, c);
    }
    hide PoppedOpen, PoppedClose, TryRecycle, Moves;
  }

  lemma PoppedOpenCalm(h: Host, o: nat)
    requires h.events != [] && o < |h.opens| && h.opens[o].conn < |h.conns|
    ensures Calm(h.conns, PoppedOpen(h, o).conns)
  {
  }

  lemma PoppedCloseMoves(h: Host, d: nat, a: Released, c: nat)
    requires h.events != [] && c < |h.conns| && d < |h.conns|
    requires h.events[0].kind == ConnClosed && h.events[0].conn == Some(d) && StageOf(h.conns[d]) == ClosedUnread
    ensures
      var z := TryRecycle(PoppedClose(h, d), d, a);
      |z.conns| == |h.conns| && Moves(h, LNextEvent(a), c, StageOf(h.conns[c]), StageOf(z.conns[c]))
  {
  }

  lemma StreamEventMoves(h: Host, e: TransportEvent, a: Released)
    requires e.Readable? || e.Writable? || e.Reset? || e.Finished?
    ensures Calm(h.conns, OnStream(h, e, a).conns)
  {
    var i := FindStream(h, e.stream);
    if i < |h.streams| {
      CalmFailNegotiation(h, i, a);
      hide FailNegotiation;
    }
  }

  lemma TransportMoves(h: Host, e: TransportEvent, a: Released, c: nat)
    requires c < |h.conns|
    ensures
      var z := OnTransport(h, e, a);
      |z.conns| == |h.conns| && Moves(h, LTransport(e, a), c, StageOf(h.conns[c]), StageOf(z.conns[c]))
  {
    hide OnEnded, OnEstablished, OnStream;
    match e
    case Established(handle, attempt, userData) => EstablishedMoves(h, handle, attempt, userData, a, c);
    case Ended(handle, attempt) => EndedMoves(h, handle, attempt, a, c);
    case Nothing =>
    case DialFailure(_) =>
    case Incoming(_, _) =>
    case _ =>
      StreamEventMoves(h, e, a);
      CalmMoves(h, LTransport(e, a), OnTransport(h, e, a), c);
  }

  /** Every step moves every connection slot along its life cycle, or leaves it where it was. */
  lemma StepMoves(h: Host, l: Label, c: nat)
    requires Inv(h) && Enabled(h, l) && c < |h.conns|
    ensures |Apply(h, l).conns| == |h.conns| && Moves(h, l, c, StageOf(h.conns[c]), StageOf(Apply(h, l).conns[c]))
  {
    hide Inv, OnTransport, Cancel, OpenStream, NextEvent, RetryOpen, CompleteNegotiation, FailNegotiation, Deliver;
    hide TryRecycle, TransportObeys;
    match l
    case LTransport(e, a) => TransportMoves(h, e, a, c);
    case LNextEvent(a) => NextEventMoves(h, a, c);
    case LOpen(d, known, userData, a) =>
      CalmOpenStream(h, d, known, userData, a);
      CalmMoves(h, l, Apply(h, l), c);
    case LCancel(o, userData, a) =>
      CalmCancel(h, o, userData, a);
      CalmMoves(h, l, Apply(h, l), c);
    case LRetry(o, a) =>
      CalmRetry(h, o, a);
      CalmMoves(h, l, Apply(h, l), c);
    case LNegotiate(i, x, a) =>
      CalmFailNegotiation(h, i, a);
      CalmComplete(h, i, if x.Agreed? then x.onOpen else Refused, a);
      CalmMoves(h, l, Apply(h, l), c);
    case LDeliver(i, x, a) =>
      CalmDeliver(h, i, x, a);
      CalmMoves(h, l, Apply(h, l), c);
    case LRecycle(d, a) =>
      CalmRecycle(h, d, a);
      CalmMoves(h, l, Apply(h, l), c);
    case _ =>
  }
}
