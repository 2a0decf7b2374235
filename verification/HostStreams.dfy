/** The life cycle of a stream slot, step by step: taken, agreed, notified, given back. */
module HostStreams {
  import opened Bytes
  import opened Host
  import opened HostInv
  import opened HostRelease
  import opened HostCompletion
  import opened HostOpening
  import opened HostEvents
  import opened HostFrame

  // --------------------------------------------------------------------- notifications

  /** Notification k is pending: the protocol of the stream is still to be told. */
  predicate Owes(s: Stream, k: Callback) {
    match k
    case OnReset => s.reset
    case OnClosed => s.closed
    case OnReadable => s.readable
    case OnWritable => s.writable
    case OnOpen => false
  }

  predicate Idle(s: Stream) {
    !s.reset && !s.closed && !s.readable && !s.writable
  }

  /** The one it is told next: a reset before a close, a close before data, data to read before room to write. */
  function Urgent(s: Stream): Callback {
    if s.reset then OnReset else if s.closed then OnClosed else if s.readable then OnReadable else OnWritable
  }

  /** The stream with one more notification pending. */
  function Marked(s: Stream, k: Callback): Stream {
    match k
    case OnReset => s.(reset := true)
    case OnClosed => s.(closed := true)
    case OnReadable => s.(readable := true)
    case OnWritable => s.(writable := true)
    case OnOpen => s
  }

  /** The stream with its most urgent notification taken off. */
  function Taken(s: Stream): Stream {
    match Urgent(s)
    case OnReset => s.(reset := false)
    case OnClosed => s.(closed := false)
    case OnReadable => s.(readable := false)
    case _ => s.(writable := false)
  }

  predicate IsStreamEvent(e: TransportEvent) {
    e.Readable? || e.Writable? || e.Reset? || e.Finished?
  }

  /** The notification a transport event about a stream asks for. */
  function Cause(e: TransportEvent): Callback
    requires IsStreamEvent(e)
  {
    match e
    case Readable(_) => OnReadable
    case Writable(_) => OnWritable
    case Reset(_) => OnReset
    case _ => OnClosed
  }

  // -------------------------------------------------------------- what happens to a slot

  /** The step gives notification k a cause on slot i: a transport event, the end of the connection, or coming up. */
  predicate Raises(h: Host, l: Label, i: nat, k: Callback) {
    && i < |h.streams| && h.streams[i].state != StreamFree
    && match l
       case LTransport(e, _) =>
         if IsStreamEvent(e) then FindStream(h, e.stream) == i && k == Cause(e)
         else
           && e.Ended? && FindConn(h, e.handle) == h.streams[i].conn < |h.conns|
           && !h.conns[h.streams[i].conn].closed && k == OnClosed
       case LNegotiate(_, _, _) => ComesUp(h, l, i) && (k == OnReadable || k == OnWritable)
       case _ => false
  }

  /** The step tells the protocol of slot i what is pending on it, if anything. */
  predicate Tells(h: Host, l: Label, i: nat) {
    && i < |h.streams| && l.LDeliver? && l.stream == i
    && h.streams[i].state == StreamOpen && !Idle(h.streams[i])
  }

  /** It is the last thing the protocol is told: a CLOSED, or something it refuses. */
  predicate Ends(h: Host, l: Label, i: nat) {
    Tells(h, l, i) && (Urgent(h.streams[i]) == OnClosed || l.reaction == Refused)
  }

  /** The step detaches slot i from its open attempt by consuming the event that announced it. */
  predicate Detaches(h: Host, l: Label, i: nat) {
    && i < |h.streams| && l.LNextEvent? && h.events != []
    && h.events[0].kind == StreamOpened && h.events[0].stream == Some(i)
    && h.streams[i].open.Some? && h.streams[i].open == h.events[0].open
  }

  predicate ComesUp(h: Host, l: Label, i: nat) {
    && i < |h.streams| && l.LNegotiate? && l.stream == i && h.streams[i].state == StreamNegotiating
    && l.outcome.Agreed? && l.outcome.onOpen != Refused
  }

  /**
    Where a new stream comes from: the peer, on the connection with the transport's handle, or an open, new or waiting.
    It keeps the transport's own handle.
  */
  predicate Origin(h: Host, l: Label, z: Host, t: Stream) {
    || (l.LTransport? && l.event.Incoming? && t.handle == l.event.stream && !t.outbound && t.open == None
        && t.conn < |h.conns| && h.conns[t.conn].active && h.conns[t.conn].handle == l.event.handle)
    || (l.LOpen? && l.answer.Opened? && t.handle == l.answer.handle && t.outbound && t.conn == l.conn
        && t.open.Some? && t.open.value < |h.opens| == |z.opens| && h.opens[t.open.value].state == OpenFree
        && z.opens[t.open.value] == Open(OpenNegotiating, l.conn, l.userData, h.issued))
    || (l.LRetry? && l.answer.Opened? && t.handle == l.answer.handle && t.outbound
        && t.open == Some(l.open) && l.open < |h.opens| && h.opens[l.open].state == OpenWaiting
        && t.conn == h.opens[l.open].conn)
  }

  ghost predicate Starts(h: Host, l: Label, z: Host, i: nat)
    requires i < |h.streams| && i < |z.streams|
  {
    var t := z.streams[i];
    && Origin(h, l, z, t)
    && h.streams[i].state == StreamFree && t.state == StreamNegotiating && t.id == h.born < z.born && Idle(t)
    && (t.open.Some? ==> t.open.value < |h.opens| && h.opens[t.open.value].state != OpenEvented)
  }

  /** Everything a step can do to a slot, each for one reason only. */
  ghost predicate Turns(h: Host, l: Label, z: Host, i: nat)
    requires i < |h.streams| && i < |z.streams|
  {
    var s, t := h.streams[i], z.streams[i];
    || t == s
    || Starts(h, l, z, i)
    || (ComesUp(h, l, i) && t == Opened1(s))
    || (exists k :: Raises(h, l, i, k) && t == Marked(s, k))
    || (Detaches(h, l, i) && t == s.(open := None))
    || (Tells(h, l, i) && !Ends(h, l, i) && t == Taken(s))
    || (s.state != StreamFree && t == NO_STREAM && (s.state == StreamOpen ==> Ends(h, l, i)))
  }

  // ------------------------------------------------------------------ one slot at a time

  lemma ReleaseFrees(h: Host, j: nat, a: Released)
    ensures |StreamRelease(h, j, a).streams| == |h.streams|
    ensures forall i :: 0 <= i < |h.streams| ==>
      StreamRelease(h, j, a).streams[i] == if i == j && h.streams[j].state != StreamFree then NO_STREAM
        else h.streams[i]
  {
  }

  lemma FailNegotiationFrees(h: Host, j: nat, a: Released)
    requires j < |h.streams| && h.streams[j].state != StreamFree
    ensures FailNegotiation(h, j, a).streams == h.streams[j := NO_STREAM]
  {
    hide StreamRelease, FailOpen;
    var s := h.streams[j];
    if s.outbound && s.open.Some? && s.open.value < |h.opens| {
      FailOpenAside(h, s.open.value);
      ReleaseFrees(FailOpen(h, s.open.value), j, a);
    } else {
      ReleaseFrees(h, j, a);
    }
  }

  /** What the end of connection c does to the slot of one of its streams. */
  function AfterClose(s: Stream, c: nat): Stream {
    if s.state == StreamFree || s.conn != c then s
    else if s.state == StreamNegotiating then NO_STREAM
    else s.(closed := true)
  }

  lemma CloseStreamTurns(h: Host, c: nat, j: nat, a: Released)
    requires j < |h.streams|
    ensures CloseStream(h, c, j, a).streams == h.streams[j := AfterClose(h.streams[j], c)]
  {
    hide FailNegotiation;
    if h.streams[j].state == StreamNegotiating { FailNegotiationFrees(h, j, a); }
    assert h.streams[j := h.streams[j]] == h.streams;
  }

  lemma {:induction false} CloseStreamsTurns(h: Host, c: nat, j: nat, a: Released, i: nat)
    requires i < |h.streams|
    ensures
      var t := CloseStreams(h, c, j, a).streams[i];
      t == h.streams[i] || t == AfterClose(h.streams[i], c)
    ensures i < j ==> CloseStreams(h, c, j, a).streams[i] == h.streams[i]
    ensures CloseStreams(h, c, j, a).lost == h.lost && j <= i ==>
      CloseStreams(h, c, j, a).streams[i] == AfterClose(h.streams[i], c)
    decreases |h.streams| - j
  {
    hide CloseStream;
    if j < |h.streams| {
      var z := CloseStream(h, c, j, a);
      CloseStreamTurns(h, c, j, a);
      if z.lost == h.lost { CloseStreamsTurns(z, c, j + 1, a, i); }
    }
  }

  lemma EndedTurns(h: Host, handle: nat, attempt: nat, a: Released, i: nat)
    requires i < |h.streams|
    ensures
      var z := OnEnded(h, handle, attempt, a);
      var c := FindConn(h, handle);
      && |z.streams| == |h.streams|
      && (z.streams[i] == h.streams[i]
            || (c < |h.conns| && !h.conns[c].closed && z.streams[i] == AfterClose(h.streams[i], c)))
      && (c < |h.conns| && !h.conns[c].closed && z.lost == h.lost ==> z.streams[i] == AfterClose(h.streams[i], c))
  {
    hide FailWaiting, CloseStreams, OnDialFailed, AfterClose;
    DialFailedAside(h, attempt);
    var c := FindConn(h, handle);
    FailWaitingAside(h, c, 0);
    CloseStreamsTurns(FailWaiting(h, c, 0), c, 0, a, i);
  }

  lemma EndTurns(h: Host, handle: nat, attempt: nat, a: Released, i: nat)
    requires i < |h.streams|
    ensures
      var z := OnEnded(h, handle, attempt, a);
      |z.streams| == |h.streams| && Turns(h, LTransport(Ended(handle, attempt), a), z, i)
  {
    hide OnEnded;
    EndedTurns(h, handle, attempt, a, i);
    var s, l := h.streams[i], LTransport(Ended(handle, attempt), a);
    if s.state == StreamOpen && OnEnded(h, handle, attempt, a).streams[i] != s {
      assert Raises(h, l, i, OnClosed) && Marked(s, OnClosed) == s.(closed := true);
    }
  }

  lemma StreamEventTurns(h: Host, e: TransportEvent, a: Released, i: nat)
    requires IsStreamEvent(e) && i < |h.streams|
    ensures |OnStream(h, e, a).streams| == |h.streams| && Turns(h, LTransport(e, a), OnStream(h, e, a), i)
  {
    hide FailNegotiation;
    var j := FindStream(h, e.stream);
    if j < |h.streams| {
      var s := h.streams[j];
      FailNegotiationFrees(h, j, a);
      if j == i && !(s.state == StreamNegotiating && (e.Reset? || e.Finished?)) {
        assert Raises(h, LTransport(e, a), i, Cause(e)) && OnStream(h, e, a).streams[i] == Marked(s, Cause(e));
      }
    }
  }

  lemma IncomingTurns(h: Host, handle: nat, stream: nat, a: Released, i: nat)
    requires i < |h.streams|
    ensures
      var z := OnIncoming(h, handle, stream).0;
      |z.streams| == |h.streams| && Turns(h, LTransport(Incoming(handle, stream), a), z, i)
  {
    hide Raises, Tells, Ends, Detaches, ComesUp;
    var z := OnIncoming(h, handle, stream).0;
    assert z.streams[i] == h.streams[i] || Starts(h, LTransport(Incoming(handle, stream), a), z, i);
  }

  lemma TransportTurns(h: Host, e: TransportEvent, a: Released, i: nat)
    requires i < |h.streams|
    ensures |OnTransport(h, e, a).streams| == |h.streams| && Turns(h, LTransport(e, a), OnTransport(h, e, a), i)
  {
    hide OnEnded, OnStream, OnEstablished, OnDialFailed, OnIncoming;
    match e
    case Established(handle, attempt, userData) => EstablishedAside(h, handle, attempt, userData);
    case Ended(handle, attempt) => EndTurns(h, handle, attempt, a, i);
    case DialFailure(attempt) => DialFailedAside(h, attempt);
    case Incoming(handle, stream) => IncomingTurns(h, handle, stream, a, i);
    case Nothing =>
    case _ => StreamEventTurns(h, e, a, i);
  }

  lemma DeliverTurns(h: Host, j: nat, x: CallbackAnswer, a: Released, i: nat)
    requires j < |h.streams| && i < |h.streams|
    ensures |Deliver(h, j, x, a).streams| == |h.streams| && Turns(h, LDeliver(j, x, a), Deliver(h, j, x, a), i)
  {
    hide CallEvent, StreamRelease;
    var s := h.streams[j];
    if s.state == StreamOpen && !Idle(s) {
      CallTurns(h, j, Taken(s), Urgent(s), x, a);
      ReleaseFrees(CallEvent(h, j, Taken(s), Urgent(s), x, a), j, a);
    }
  }

  lemma CallTurns(h: Host, j: nat, s: Stream, k: Callback, x: CallbackAnswer, a: Released)
    requires j < |h.streams| && s.state == StreamOpen
    ensures CallEvent(h, j, s, k, x, a).streams == h.streams[j := if x == Refused then NO_STREAM else s]
    ensures CallEvent(h, j, s, k, x, a).calls == h.calls + if x == NoHandler then [] else [Call(s.id, k, x == Accepted)]
    ensures Aside(h, CallEvent(h, j, s, k, x, a).(calls := h.calls))
  {
    hide StreamRelease;
    var h2 := h.(streams := h.streams[j := s], calls := h.calls + [Call(s.id, k, x == Accepted)]);
    ReleaseFrees(h2, j, a);
    ReleaseAside(h2, j, a);
  }

  lemma NegotiateTurns(h: Host, j: nat, x: Outcome, a: Released, i: nat)
    requires Inv(h) && PushFits(h) && j < |h.streams| && i < |h.streams|
    ensures |Negotiate(h, j, x, a).streams| == |h.streams| && Turns(h, LNegotiate(j, x, a), Negotiate(h, j, x, a), i)
  {
    hide Inv, FailNegotiation, CompleteNegotiation;
    if h.streams[j].state == StreamNegotiating {
      match x
      case Unfinished =>
      case Failed => FailNegotiationFrees(h, j, a);
      case Agreed(onOpen) =>
        if onOpen == Refused { RefusedFrees(h, j, a); } else { PromotedIs(h, j, onOpen, a); }
    }
  }

  lemma RefusedFrees(h: Host, j: nat, a: Released)
    requires j < |h.streams| && h.streams[j].state == StreamNegotiating
    ensures CompleteNegotiation(h, j, Refused, a).streams == h.streams[j := NO_STREAM]
  {
    hide FailNegotiation;
    var s := h.streams[j];
    var up := h.streams[j := s.(state := StreamOpen)];
    FailNegotiationFrees(h.(calls := h.calls + [Call(s.id, OnOpen, false)], streams := up), j, a);
    assert up[j := NO_STREAM] == h.streams[j := NO_STREAM];
  }

  lemma CancelTurns(h: Host, o: nat, userData: nat, a: Released, i: nat)
    requires Inv(h) && i < |h.streams|
    ensures
      var z := Cancel(h, o, userData, a).0;
      |z.streams| == |h.streams| && Turns(h, LCancel(o, userData, a), z, i)
  {
    hide Inv, Turns;
    if h.phase != Closed && o < |h.opens| && h.opens[o].state == OpenNegotiating && h.opens[o].userData == userData {
      OwnerFound(h, o);
      CancelFrees(h, o, OwnerOf(h, o), userData, a);
      Gone(h, LCancel(o, userData, a), Cancel(h, o, userData, a).0, i);
    } else {
      CancelElse(h, o, userData, a);
      Unturned(h, LCancel(o, userData, a), Cancel(h, o, userData, a).0, i);
    }
  }

  lemma Unturned(h: Host, l: Label, z: Host, i: nat)
    requires i < |h.streams| && z.streams == h.streams
    ensures Turns(h, l, z, i)
  {
  }

  lemma Gone(h: Host, l: Label, z: Host, i: nat)
    requires |z.streams| == |h.streams| && i < |h.streams|
    requires z.streams[i] == h.streams[i] || (h.streams[i].state == StreamNegotiating && z.streams[i] == NO_STREAM)
    ensures Turns(h, l, z, i)
  {
  }

  lemma CancelFrees(h: Host, o: nat, j: nat, userData: nat, a: Released)
    requires h.phase != Closed && o < |h.opens|
    requires h.opens[o].state == OpenNegotiating && h.opens[o].userData == userData
    requires j == OwnerOf(h, o) && j < |h.streams| && h.streams[j].state != StreamFree
    ensures Cancel(h, o, userData, a).0.streams == h.streams[j := NO_STREAM]
  {
    hide StreamRelease;
    var cut := h.streams[j := h.streams[j].(open := None)];
    ReleaseFrees(h.(resolved := h.resolved + [h.opens[o].id], streams := cut), j, a);
    assert cut[j := NO_STREAM] == h.streams[j := NO_STREAM];
  }

  lemma CancelElse(h: Host, o: nat, userData: nat, a: Released)
    requires !(h.phase != Closed && o < |h.opens| && h.opens[o].state == OpenNegotiating
      && h.opens[o].userData == userData)
    ensures Cancel(h, o, userData, a).0.streams == h.streams
  {
  }

  lemma NextTurns(h: Host, a: Released, i: nat)
    requires Inv(h) && h.events != [] && i < |h.streams|
    ensures |NextEvent(h, a).streams| == |h.streams| && Turns(h, LNextEvent(a), NextEvent(h, a), i)
  {
    hide Inv, NextEvent, Turns, PoppedOpen, TryRecycle;
    NextEventIs(h, a);
    var e := h.events[0];
    if e.open.Some? {
      PoppedOpenTurns(h, e.open.value, LNextEvent(a), i);
    } else {
      if e.kind == ConnClosed { RecycleSame(PoppedClose(h, e.conn.value), e.conn.value, a); }
      Unturned(h, LNextEvent(a), NextEvent(h, a), i);
    }
  }

  lemma RecycleSame(h: Host, c: nat, a: Released)
    ensures TryRecycle(h, c, a).streams == h.streams && TryRecycle(h, c, a).events == h.events
    ensures TryRecycle(h, c, a).calls == h.calls && TryRecycle(h, c, a).phase == h.phase
  {
  }

  lemma PoppedOpenTurns(h: Host, o: nat, l: Label, i: nat)
    requires h.events != [] && i < |h.streams| && o < |h.opens| && h.opens[o].conn < |h.conns|
    requires l.LNextEvent? && h.events[0].open == Some(o)
    ensures |PoppedOpen(h, o).streams| == |h.streams| && Turns(h, l, PoppedOpen(h, o), i)
  {
    hide Raises, Tells, Ends, ComesUp;
  }

  lemma OpenTurns(h: Host, c: nat, known: bool, userData: nat, a: OpenAnswer, i: nat)
    requires i < |h.streams|
    ensures
      var z := OpenStream(h, c, known, userData, a).0;
      |z.streams| == |h.streams| && Turns(h, LOpen(c, known, userData, a), z, i)
  {
    hide Raises, Tells, Ends, Detaches, ComesUp;
    var z := OpenStream(h, c, known, userData, a).0;
    assert |z.streams| == |h.streams|;
    assert z.streams[i] == h.streams[i] || Starts(h, LOpen(c, known, userData, a), z, i);
  }

  lemma RetryTurns(h: Host, o: nat, a: OpenAnswer, i: nat)
    requires i < |h.streams| && o < |h.opens|
    ensures |RetryOpen(h, o, a).streams| == |h.streams| && Turns(h, LRetry(o, a), RetryOpen(h, o, a), i)
  {
    hide Raises, Tells, Ends, Detaches, ComesUp, FailOpen;
    FailOpenAside(h, o);
    var z := RetryOpen(h, o, a);
    assert |z.streams| == |h.streams| && (z.streams[i] == h.streams[i] || Starts(h, LRetry(o, a), z, i));
  }

  // ------------------------------------------------------------------------- every step

  /** Every step moves every stream slot along its life cycle, or leaves it where it was. */
  lemma SlotTurns(h: Host, l: Label, i: nat)
    requires Inv(h) && Enabled(h, l) && i < |h.streams|
    ensures |Apply(h, l).streams| == |h.streams| && Turns(h, l, Apply(h, l), i)
  {
    hide Inv, OnTransport, Cancel, NextEvent, Deliver, Negotiate, TransportObeys, OpenStream, RetryOpen, TryRecycle;
    hide Turns;
    match l
    case LTransport(e, a) => TransportTurns(h, e, a, i);
    case LCancel(o, userData, a) => CancelTurns(h, o, userData, a, i);
    case LNextEvent(a) => NextTurns(h, a, i);
    case LDeliver(j, x, a) => DeliverTurns(h, j, x, a, i);
    case LNegotiate(j, x, a) => NegotiateTurns(h, j, x, a, i);
    case LOpen(c, known, userData, a) => OpenTurns(h, c, known, userData, a, i);
    case LRetry(o, a) => RetryTurns(h, o, a, i);
    case LRecycle(c, a) =>
      RecycleSame(h, c, a);
      Unturned(h, l, Apply(h, l), i);
    case _ => Unturned(h, l, Apply(h, l), i);
  }

  /** What a step does to what is pending on a slot. */
  lemma PendingTurns(h: Host, l: Label, i: nat, k: Callback)
    requires Inv(h) && Enabled(h, l) && i < |h.streams|
    ensures |Apply(h, l).streams| == |h.streams|
    ensures
      var s, t := h.streams[i], Apply(h, l).streams[i];
      && (s.state != StreamFree && t.state != StreamFree ==> t.id == s.id)
      && (s.state == StreamFree && t.state != StreamFree ==> t.id == h.born && Idle(t))
      && (s.state != StreamFree && t.state != StreamFree && Owes(t, k) ==> Owes(s, k) || Raises(h, l, i, k))
      && (s.state != StreamFree && t.state != StreamFree && Owes(s, k) ==>
            Owes(t, k) || (Tells(h, l, i) && k == Urgent(s)))
  {
    hide Inv, Apply, Enabled, Raises, Tells, Marked, Taken, Owes, Urgent, Idle, Ends, Detaches;
    SlotTurns(h, l, i);
    forall j ensures Follows(h.streams[i], Marked(h.streams[i], j), k) {
      MarkedFollows(h.streams[i], j, k);
    }
    forall j | Owes(Marked(h.streams[i], j), k) ensures Owes(h.streams[i], k) || k == j {
      MarkedFollows(h.streams[i], j, k);
    }
    OpenedFollows(h, l, i, k);
    TakenFollows(h.streams[i], k);
    Detached(h.streams[i], k);
  }

  predicate Follows(s: Stream, t: Stream, k: Callback) {
    SameButFlags(s, t) && (Owes(s, k) ==> Owes(t, k))
  }

  predicate SameButFlags(s: Stream, t: Stream) {
    && t.state == s.state && t.id == s.id && t.conn == s.conn && t.handle == s.handle
    && t.outbound == s.outbound && t.open == s.open
  }

  lemma MarkedFollows(s: Stream, j: Callback, k: Callback)
    ensures Follows(s, Marked(s, j), k) && (Owes(Marked(s, j), k) ==> Owes(s, k) || k == j)
  {
  }

  lemma TakenFollows(s: Stream, k: Callback)
    ensures SameButFlags(s, Taken(s))
    ensures (Owes(Taken(s), k) ==> Owes(s, k)) && (Owes(s, k) && k != Urgent(s) ==> Owes(Taken(s), k))
  {
  }

  lemma OpenedFollows(h: Host, l: Label, i: nat, k: Callback)
    requires i < |h.streams|
    ensures Owes(h.streams[i], k) ==> Owes(Opened1(h.streams[i]), k)
    ensures ComesUp(h, l, i) && Owes(Opened1(h.streams[i]), k) ==> Owes(h.streams[i], k) || Raises(h, l, i, k)
  {
  }

  lemma Detached(s: Stream, k: Callback)
    ensures Owes(s.(open := None), k) == Owes(s, k) && !Owes(NO_STREAM, k)
  {
  }

  // ---------------------------------------------------------- and nothing else happens

  /** The last thing a protocol is told frees the slot; anything else it is told is no longer pending. */
  lemma TellTakes(h: Host, l: Label, i: nat)
    requires Enabled(h, l) && Tells(h, l, i)
    ensures |Apply(h, l).streams| == |h.streams|
    ensures Apply(h, l).streams[i] == if Ends(h, l, i) then NO_STREAM else Taken(h.streams[i])
  {
    hide CallEvent, StreamRelease;
    var s := h.streams[i];
    CallTurns(h, i, Taken(s), Urgent(s), l.reaction, l.released);
    ReleaseFrees(CallEvent(h, i, Taken(s), Urgent(s), l.reaction, l.released), i, l.released);
  }

  /** A cause makes its notification pending, unless the stream is given up in the same step. */
  lemma RaiseMarks(h: Host, l: Label, i: nat, k: Callback)
    requires Inv(h) && Enabled(h, l) && Inv(Apply(h, l)) && Raises(h, l, i, k)
    ensures |Apply(h, l).streams| == |h.streams|
    ensures
      var s, t := h.streams[i], Apply(h, l).streams[i];
      (s.state == StreamNegotiating && t == NO_STREAM) || (t.state != StreamFree && t.id == s.id && Owes(t, k))
  {
    hide Inv, OnStream, OnEnded, CompleteNegotiation;
    SameLost(h);
    SameLost(Apply(h, l));
    if l.LNegotiate? {
      PromotedIs(h, i, l.outcome.onOpen, l.released);
    } else if l.event.Ended? {
      EndedTurns(h, l.event.handle, l.event.attempt, l.released, i);
    } else {
      StreamEventMarks(h, l.event, l.released);
    }
  }

  lemma SameLost(h: Host)
    requires Inv(h)
    ensures h.lost == 0
  {
    hide Structure, Queued, History, LastWord;
  }

  lemma StreamEventMarks(h: Host, e: TransportEvent, a: Released)
    requires IsStreamEvent(e) && FindStream(h, e.stream) < |h.streams|
    ensures
      var i := FindStream(h, e.stream);
      var s := h.streams[i];
      OnStream(h, e, a).streams == h.streams[i :=
        if s.state == StreamNegotiating && (e.Reset? || e.Finished?) then NO_STREAM else Marked(s, Cause(e))]
  {
    hide FailNegotiation;
    FailNegotiationFrees(h, FindStream(h, e.stream), a);
  }

  // ------------------------------------------------------------------ callbacks and news

  /** What protocols hear in a step. */
  function Spoken(h: Host, l: Label): seq<Call> {
    if l.LNegotiate? && l.stream < |h.streams| && h.streams[l.stream].state == StreamNegotiating
      && l.outcome.Agreed? then
      [Call(h.streams[l.stream].id, OnOpen, l.outcome.onOpen != Refused)]
    else if l.LDeliver? && Tells(h, l, l.stream) && l.reaction != NoHandler then
      [Call(h.streams[l.stream].id, Urgent(h.streams[l.stream]), l.reaction == Accepted)]
    else []
  }

  /** STREAM_OPENED for the stream in slot i. */
  function NewsOf(h: Host, i: nat): Event
    requires i < |h.streams|
  {
    var s := h.streams[i];
    var userData := if s.open.Some? && s.open.value < |h.opens| then h.opens[s.open.value].userData else 0;
    Event(StreamOpened, Some(s.conn), Some(i), None, s.open, Some(s.id), userData)
  }

  /** Only an outbound stream that comes up is announced. */
  ghost predicate OnlyNews(h: Host, l: Label, z: Host) {
    forall e :: e in z.events && e.kind == StreamOpened && e !in h.events ==>
      l.LNegotiate? && ComesUp(h, l, l.stream) && h.streams[l.stream].open.Some? && e == NewsOf(h, l.stream)
  }

  ghost predicate Records(h: Host, l: Label, z: Host) {
    z.calls == h.calls + Spoken(h, l) && h.born <= z.born && OnlyNews(h, l, z)
  }

  lemma AsideRecords(h: Host, l: Label, z: Host)
    requires Aside(h, z) && !l.LNegotiate? && !l.LDeliver?
    ensures Records(h, l, z)
  {
  }

  lemma DeliverRecords(h: Host, i: nat, x: CallbackAnswer, a: Released)
    requires i < |h.streams|
    ensures Records(h, LDeliver(i, x, a), Deliver(h, i, x, a))
  {
    hide CallEvent, StreamRelease;
    var s := h.streams[i];
    if s.state == StreamOpen && !Idle(s) {
      CallTurns(h, i, Taken(s), Urgent(s), x, a);
      ReleaseAside(CallEvent(h, i, Taken(s), Urgent(s), x, a), i, a);
    }
  }

  lemma NegotiateRecords(h: Host, i: nat, x: Outcome, a: Released)
    requires Inv(h) && PushFits(h) && i < |h.streams|
    ensures Records(h, LNegotiate(i, x, a), Negotiate(h, i, x, a))
  {
    hide Inv, FailNegotiation, CompleteNegotiation;
    var s := h.streams[i];
    if s.state == StreamNegotiating {
      match x
      case Unfinished =>
      case Failed => FailNegotiationAside(h, i, a);
      case Agreed(onOpen) =>
        if onOpen == Refused { RefusedRecords(h, i, a); } else { PromotedIs(h, i, onOpen, a); }
    }
  }

  lemma RefusedRecords(h: Host, i: nat, a: Released)
    requires i < |h.streams| && h.streams[i].state == StreamNegotiating
    ensures Records(h, LNegotiate(i, Agreed(Refused), a), CompleteNegotiation(h, i, Refused, a))
  {
    hide FailNegotiation;
    var s := h.streams[i];
    var up := h.streams[i := s.(state := StreamOpen)];
    FailNegotiationAside(h.(calls := h.calls + [Call(s.id, OnOpen, false)], streams := up), i, a);
  }

  lemma CancelRecords(h: Host, o: nat, userData: nat, a: Released)
    ensures Records(h, LCancel(o, userData, a), Cancel(h, o, userData, a).0)
  {
    hide StreamRelease, OpenRelease, TryRecycle;
    if o < |h.opens| {
      var c, j := h.opens[o].conn, OwnerOf(h, o);
      var h0 := h.(resolved := h.resolved + [h.opens[o].id]);
      GivenBackAside(h0, o, c, a);
      if j < |h.streams| {
        var h1 := h0.(streams := h.streams[j := h.streams[j].(open := None)]);
        ReleaseAside(h1, j, a);
        GivenBackAside(StreamRelease(h1, j, a), o, c, a);
      }
    }
  }

  lemma NextRecords(h: Host, a: Released)
    requires Inv(h) && h.events != []
    ensures Records(h, LNextEvent(a), NextEvent(h, a)) && NextEvent(h, a).events == h.events[1..]
  {
    hide Inv, NextEvent, TryRecycle;
    NextEventIs(h, a);
    var e := h.events[0];
    if e.kind == ConnClosed && e.open.None? {
      RecycleSame(PoppedClose(h, e.conn.value), e.conn.value, a);
      RecycleAside(PoppedClose(h, e.conn.value), e.conn.value, a);
    }
  }

  lemma OpenRecords(h: Host, c: nat, known: bool, userData: nat, a: OpenAnswer)
    ensures Records(h, LOpen(c, known, userData, a), OpenStream(h, c, known, userData, a).0)
  {
  }

  /** What every step adds to the callbacks made and to the announcements queued. */
  lemma StepRecords(h: Host, l: Label)
    requires Inv(h) && Enabled(h, l)
    ensures Records(h, l, Apply(h, l))
  {
    hide Inv, OnTransport, Cancel, NextEvent, Deliver, Negotiate, TransportObeys, OpenStream, RetryOpen, TryRecycle;
    hide Records, Aside;
    match l
    case LTransport(e, a) =>
      TransportAside(h, e, a);
      AsideRecords(h, l, Apply(h, l));
    case LCancel(o, userData, a) => CancelRecords(h, o, userData, a);
    case LNextEvent(a) => NextRecords(h, a);
    case LDeliver(j, x, a) => DeliverRecords(h, j, x, a);
    case LNegotiate(j, x, a) => NegotiateRecords(h, j, x, a);
    case LOpen(c, known, userData, a) => OpenRecords(h, c, known, userData, a);
    case LRetry(o, a) =>
      RetryAside(h, o, a);
      AsideRecords(h, l, Apply(h, l));
    case LRecycle(c, a) =>
      RecycleAside(h, c, a);
      AsideRecords(h, l, Apply(h, l));
    case _ => PlainRecords(h, l);
  }

  lemma PlainRecords(h: Host, l: Label)
    requires Enabled(h, l) && (l.LDial? || l.LClose? || l.LCloseConn? || l.LComplete? || l.LDrive? || l.LReturn?)
    ensures Records(h, l, Apply(h, l))
  {
  }
}
