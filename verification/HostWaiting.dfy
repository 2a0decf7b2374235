/** No step of a drive makes an open wait: an open that waits afterwards has waited before. */
module HostWaiting {
  import opened Bytes
  import opened Host

  ghost predicate WaitKept(h: Host, z: Host) {
    && |z.opens| == |h.opens|
    && forall o :: 0 <= o < |h.opens| && z.opens[o].state == OpenWaiting ==> h.opens[o].state == OpenWaiting
  }

  lemma WaitThen(h: Host, y: Host, z: Host)
    requires WaitKept(h, y) && WaitKept(y, z)
    ensures WaitKept(h, z)
  {
  }

  lemma SameOpens(h: Host, z: Host)
    requires z.opens == h.opens
    ensures WaitKept(h, z)
  {
  }

  lemma SmallWaits(h: Host, o: nat, c: nat, a: Released)
    ensures WaitKept(h, OpenRelease(h, o)) && WaitKept(h, TryRecycle(h, c, a))
  {
  }

  lemma ReleaseWaits(h: Host, i: nat, a: Released)
    ensures WaitKept(h, StreamRelease(h, i, a))
  {
    hide OpenRelease;
    if i < |h.streams| && h.streams[i].state != StreamFree && h.streams[i].open.Some? {
      var s := h.streams[i];
      var v := ConnAt(h, s.conn);
      SmallWaits(SetConn(h, s.conn, v.(streamCount := Minus1(v.streamCount))), s.open.value, 0, a);
    }
  }

  lemma FailOpenWaits(h: Host, o: nat)
    requires o < |h.opens|
    ensures WaitKept(h, FailOpen(h, o)) && FailOpen(h, o).opens[o].state != OpenWaiting
  {
  }

  lemma FailNegotiationWaits(h: Host, i: nat, a: Released)
    requires i < |h.streams|
    ensures WaitKept(h, FailNegotiation(h, i, a))
  {
    hide StreamRelease, FailOpen, WaitKept;
    var s := h.streams[i];
    ReleaseWaits(h, i, a);
    if s.outbound && s.open.Some? && s.open.value < |h.opens| {
      FailOpenWaits(h, s.open.value);
      ReleaseWaits(FailOpen(h, s.open.value), i, a);
      WaitThen(h, FailOpen(h, s.open.value), FailNegotiation(h, i, a));
    }
  }

  lemma CompleteWaits(h: Host, i: nat, x: CallbackAnswer, a: Released)
    requires i < |h.streams|
    ensures WaitKept(h, CompleteNegotiation(h, i, x, a))
  {
    hide FailNegotiation;
    var s := h.streams[i];
    FailNegotiationWaits(h.(calls := h.calls + [Call(s.id, OnOpen, x != Refused)],
                            streams := h.streams[i := s.(state := StreamOpen)]), i, a);
  }

  lemma {:induction false} FailWaitingWaits(h: Host, c: nat, o: nat)
    ensures WaitKept(h, FailWaiting(h, c, o))
    decreases |h.opens| - o
  {
    hide FailOpen, WaitKept;
    SameOpens(h, h);
    if o < |h.opens| {
      FailOpenWaits(h, o);
      var z := if h.opens[o].state == OpenWaiting && h.opens[o].conn == c then FailOpen(h, o) else h;
      FailWaitingWaits(z, c, o + 1);
      WaitThen(h, z, FailWaiting(z, c, o + 1));
    }
  }

  lemma CloseStreamWaits(h: Host, c: nat, i: nat, a: Released)
    requires i < |h.streams|
    ensures WaitKept(h, CloseStream(h, c, i, a))
  {
    hide FailNegotiation;
    FailNegotiationWaits(h, i, a);
  }

  lemma {:induction false} CloseStreamsWait(h: Host, c: nat, i: nat, a: Released)
    ensures WaitKept(h, CloseStreams(h, c, i, a))
    decreases |h.streams| - i
  {
    hide CloseStream, WaitKept;
    SameOpens(h, h);
    if i < |h.streams| {
      var z := CloseStream(h, c, i, a);
      CloseStreamWaits(h, c, i, a);
      CloseStreamsWait(z, c, i + 1, a);
      WaitThen(h, z, CloseStreams(z, c, i + 1, a));
    }
  }

  lemma EndedWaits(h: Host, handle: nat, attempt: nat, a: Released)
    ensures WaitKept(h, OnEnded(h, handle, attempt, a))
  {
    hide FailWaiting, CloseStreams;
    var c := FindConn(h, handle);
    if c < |h.conns| && !h.conns[c].closed {
      var h0 := FailWaiting(h, c, 0);
      FailWaitingWaits(h, c, 0);
      CloseStreamsWait(h0, c, 0, a);
      WaitThen(h, h0, CloseStreams(h0, c, 0, a));
    }
  }

  lemma StreamEventWaits(h: Host, e: TransportEvent, a: Released)
    requires e.Readable? || e.Writable? || e.Reset? || e.Finished?
    ensures WaitKept(h, OnStream(h, e, a))
  {
    hide FailNegotiation;
    if FindStream(h, e.stream) < |h.streams| { FailNegotiationWaits(h, FindStream(h, e.stream), a); }
  }

  lemma TransportWaits(h: Host, e: TransportEvent, a: Released)
    ensures WaitKept(h, OnTransport(h, e, a))
  {
    hide OnEnded, OnStream;
    match e
    case Ended(handle, attempt) => EndedWaits(h, handle, attempt, a);
    case Established(_, _, _) =>
    case DialFailure(_) =>
    case Incoming(_, _) =>
    case Nothing =>
    case _ => StreamEventWaits(h, e, a);
  }

  lemma RetryWaits(h: Host, o: nat, a: OpenAnswer)
    requires o < |h.opens|
    ensures WaitKept(h, RetryOpen(h, o, a))
  {
    hide FailOpen;
    FailOpenWaits(h, o);
  }

  lemma NegotiateWaits(h: Host, i: nat, x: Outcome, a: Released)
    requires i < |h.streams|
    ensures WaitKept(h, Negotiate(h, i, x, a))
  {
    hide FailNegotiation, CompleteNegotiation;
    FailNegotiationWaits(h, i, a);
    if x.Agreed? { CompleteWaits(h, i, x.onOpen, a); }
  }

  lemma CallWaits(h: Host, i: nat, s: Stream, kind: Callback, x: CallbackAnswer, a: Released)
    requires i < |h.streams|
    ensures WaitKept(h, CallEvent(h, i, s, kind, x, a))
  {
    hide StreamRelease;
    ReleaseWaits(h.(streams := h.streams[i := s], calls := h.calls + [Call(s.id, kind, x == Accepted)]), i, a);
  }

  lemma DeliverWaits(h: Host, i: nat, x: CallbackAnswer, a: Released)
    requires i < |h.streams|
    ensures WaitKept(h, Deliver(h, i, x, a))
  {
    hide StreamRelease, CallEvent, WaitKept;
    var s := h.streams[i];
    SameOpens(h, h);
    CallWaits(h, i, s.(reset := false), OnReset, x, a);
    CallWaits(h, i, s.(closed := false), OnClosed, x, a);
    CallWaits(h, i, s.(readable := false), OnReadable, x, a);
    CallWaits(h, i, s.(writable := false), OnWritable, x, a);
    var y := CallEvent(h, i, s.(closed := false), OnClosed, x, a);
    ReleaseWaits(y, i, a);
    WaitThen(h, y, StreamRelease(y, i, a));
  }

  /** The labels of a drive's own steps */
  predicate Inner(l: Label) {
    l.LTransport? || l.LRetry? || l.LNegotiate? || l.LDeliver? || l.LRecycle? || l.LComplete?
  }

  lemma StepWaits(h: Host, l: Label)
    requires Enabled(h, l) && Inner(l)
    ensures WaitKept(h, Apply(h, l))
  {
    hide OnTransport, RetryOpen, Negotiate, Deliver, TransportObeys, WaitKept;
    match l
    case LTransport(e, a) => TransportWaits(h, e, a);
    case LRetry(o, a) => RetryWaits(h, o, a);
    case LNegotiate(i, x, a) => NegotiateWaits(h, i, x, a);
    case LDeliver(i, x, a) => DeliverWaits(h, i, x, a);
    case LRecycle(c, a) => SmallWaits(h, 0, c, a);
    case LComplete => SameOpens(h, Apply(h, l));
  }
}
