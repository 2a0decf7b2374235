/** libp2p_host_drive: the loop over transport events, retries, negotiation, notifications and recycling. */
module HostDrive {
  import opened Bytes
  import opened Host
  import opened HostImpl
  import opened HostExec
  import opened HostWaiting
  import HostInv
  import Ring
  import Negotiation

  // -------------------------------------------------------------------- steps of the loop

  /** What the transport has to report in this drive, in order */
  class Arrivals {
    var ready: seq<TransportEvent>

    constructor (events: seq<TransportEvent>)
      ensures ready == events
    {
      ready := events;
    }
  }

  /** host_transport_event_one: the next event that the transport has, unless it fails */
  method TransportOne(host: LiveHost, net: Arrivals)
    returns (progress: bool, ok: bool, ghost broken: bool, ghost labels: seq<Label>)
    requires host.Valid() && host.driving && host.ring.Length - host.len > host.opens.Length
    modifies net, host`len, host`lost, host`born
    modifies host.ring, host.conns, host.opens, host.streams, host.dials, host.records
    ensures host.Valid() && Went(old(host.Model()), labels, host.Model())
    ensures ok <==> !broken && Sound(old(host.Model()), labels)
    ensures progress <==> !broken && old(net.ready) != []
    ensures InOrder(old(net.ready), Received(labels), net.ready) && (progress ==> |Received(labels)| == 1)
    ensures !progress ==> host.Model() == old(host.Model()) && net.ready == old(net.ready)
  {
    hide OnTransport, TransportStatus, Matched, Exec, Sound, Ring.Contents;
    progress, labels := false, [];
    WentNowhere(host.Model());
    ok := *;
    broken := !ok;
    if ok && net.ready != [] {
      var e := net.ready[0];
      net.ready := net.ready[1..];
      if e.Established? {
        var c := host.ScanConn(e.handle);
        if c < host.conns.Length && host.conns[c].closed { e := Nothing; }
      }
      var a: Released := *;
      ghost var h := host.Model();
      assert TransportObeys(h, e) && TransportGate(h);
      progress := true;
      ok := host.HandleTransport(e, a);
      labels := [LTransport(e, a)];
      hide TransportObeys;
      assert labels[1..] == [];
      WentOne(h, labels[0]);
    }
  }

  /** One slot of host_stream_open_retry_one. */
  method RetrySlot(host: LiveHost, o: nat, a: OpenAnswer) returns (progress: bool, ok: bool)
    requires host.Valid() && o < host.opens.Length && host.opens[o].state == OpenWaiting
    modifies host`len, host`lost, host`born, host.ring, host.conns, host.opens, host.streams, host.records
    ensures host.Valid() && host.Model() == RetryOpen(old(host.Model()), o, a)
    ensures !progress && ok ==> host.Model() == old(host.Model())
    ensures ok <==> host.lost == old(host.lost)
  {
    progress, ok := false, true;
    match a
    case OpenWouldBlock =>
    case OpenError =>
      ok := host.GiveUp(o);
      progress := ok;
    case Opened(handle) =>
      hide FailOpen, StreamSlot;
      if host.opens[o].conn < host.conns.Length {
        var i := host.TakeStream(host.opens[o].conn, handle, Some(o));
        if i.Some? {
          host.SetOpenSlot(o, host.opens[o].(state := OpenNegotiating));
          progress := true;
        } else {
          ok := host.GiveUp(o);
          progress := ok;
        }
      }
  }

  /** The slot under the cursor: if its open waits, the transport is asked. */
  method RetryTurn(host: LiveHost) returns (progress: bool, ok: bool, ghost labels: seq<Label>)
    requires host.Valid() && host.driving && host.len < host.ring.Length
    modifies host`len, host`lost, host`born, host`openCursor
    modifies host.ring, host.conns, host.opens, host.streams, host.records
    ensures host.Valid() && Went(old(host.Model()), labels, host.Model())
    ensures !progress && ok ==> host.Model() == old(host.Model())
    ensures ok <==> Sound(old(host.Model()), labels)
    ensures Received(labels) == []
    ensures host.openCursor == (old(host.openCursor) + 1) % host.opens.Length
    ensures old(host.opens[host.openCursor]).state == OpenWaiting ==> Asked(labels, old(host.openCursor))
    ensures old(host.opens[host.openCursor]).state != OpenWaiting ==> host.Model() == old(host.Model())
  {
    hide Sound, Exec, RetryOpen, Matched, Ring.Contents;
    progress, ok, labels := false, true, [];
    WentNowhere(host.Model());
    var index := host.openCursor;
    host.openCursor := (host.openCursor + 1) % host.opens.Length;
    if host.opens[index].state == OpenWaiting {
      var a: OpenAnswer := *;
      ghost var h := host.Model();
      progress, ok := RetrySlot(host, index, a);
      labels := [LRetry(index, a)];
      NoneReceived(labels);
      assert labels[0].LRetry? && labels[0].open == index;
      WentOne(h, labels[0]);
    }
  }

  /** Whoever still waits in the slots from lo to hi, counted from `start`, has been asked for. */
  ghost predicate WaitersAsked(opens: seq<Open>, labels: seq<Label>, start: nat, lo: nat, hi: nat)
    requires start < |opens| && hi <= |opens|
  {
    forall j: nat :: lo <= j < hi && opens[Slot(start, j, |opens|)].state == OpenWaiting ==>
      Asked(labels, Slot(start, j, |opens|))
  }

  /** One slot more */
  lemma MoreAsked(h: Host, z: Host, labels: seq<Label>, more: seq<Label>, start: nat, lo: nat, hi: nat, index: nat)
    requires WaitKept(h, z) && start < |h.opens| && 0 < hi <= |h.opens| && index == Slot(start, hi - 1, |h.opens|)
    requires WaitersAsked(h.opens, labels, start, lo, hi - 1)
    requires h.opens[index].state == OpenWaiting ==> Asked(more, index)
    ensures WaitersAsked(z.opens, labels + more, start, lo, hi)
  {
    hide Asked, Slot;
    forall j: nat | lo <= j < hi && z.opens[Slot(start, j, |z.opens|)].state == OpenWaiting
      ensures Asked(labels + more, Slot(start, j, |z.opens|))
    {
      LabelsStay(labels, more, Slot(start, j, |z.opens|));
    }
  }

  /**
    host_stream_open_retry_one: the next slots in turn, until one makes progress. `checked` of them were passed before,
    counted from `start`; whoever waits among those passed now has been asked for.
  */
  method RetryOne(host: LiveHost, checked: nat, ghost start: nat)
    returns (checked': nat, progress: bool, ok: bool, ghost labels: seq<Label>)
    requires host.Valid() && host.driving && host.len < host.ring.Length
    requires start < host.opens.Length && checked <= host.opens.Length
    requires checked < host.opens.Length ==> host.openCursor == Slot(start, checked, host.opens.Length)
    modifies host`len, host`lost, host`born, host`openCursor
    modifies host.ring, host.conns, host.opens, host.streams, host.records
    ensures host.Valid() && Went(old(host.Model()), labels, host.Model())
    ensures checked <= checked' <= host.opens.Length
    ensures checked' < host.opens.Length ==> host.openCursor == Slot(start, checked', host.opens.Length)
    ensures ok <==> Sound(old(host.Model()), labels)
    ensures Received(labels) == []
    ensures !progress && ok ==> checked' == host.opens.Length && host.Model() == old(host.Model())
    ensures WaitersAsked(host.Model().opens, labels, start, checked, checked')
  {
    hide Exec, Sound, Matched, Asked, Ring.Contents, Slot, WaitKept, WaitersAsked;
    labels := [];
    WentNowhere(host.Model());
    NoneBetween(host.Model().opens, labels, start, checked);
    checked', progress, ok := checked, false, true;
    while checked' < host.opens.Length && !progress && ok
      invariant host.Valid() && Went(old(host.Model()), labels, host.Model())
      invariant checked <= checked' <= host.opens.Length && Received(labels) == []
      invariant checked' < host.opens.Length ==> host.openCursor == Slot(start, checked', host.opens.Length)
      invariant host.driving && (!progress && ok ==> host.Model() == old(host.Model()))
      invariant ok <==> Sound(old(host.Model()), labels)
      invariant WaitersAsked(host.Model().opens, labels, start, checked, checked')
      decreases host.opens.Length - checked'
    {
      ghost var h, before, more := host.Model(), labels, [];
      SlotNext(start, checked', host.opens.Length);
      ghost var index := host.openCursor;
      checked' := checked' + 1;
      progress, ok, more := RetryTurn(host);
      WentThen(old(host.Model()), labels, h, more, host.Model());
      ReceivedThen(labels, more);
      ExecWaits(h, more, host.Model());
      labels := labels + more;
      MoreAsked(h, host.Model(), before, more, start, checked, checked', index);
    }
  }

  /** One negotiating stream: its step ends in nothing yet, an agreement, or a failure. */
  method NegotiateSlot(host: LiveHost, i: nat, x: Outcome, a: Released) returns (ok: bool)
    requires host.Valid() && i < host.streams.Length && host.streams[i].state == StreamNegotiating
    modifies host`len, host`lost, host`calls, host.ring, host.conns, host.opens, host.streams
    ensures host.Valid() && host.Model() == Negotiate(old(host.Model()), i, x, a)
    ensures x == Unfinished ==> host.len == old(host.len)
    ensures ok <==> host.lost == old(host.lost)
  {
    hide CompleteNegotiation, FailNegotiation;
    ok := true;
    match x
    case Unfinished =>
    case Agreed(onOpen) => ok := host.Complete(i, onOpen, a);
    case Failed => ok := host.Abandon(i, a);
  }

  /** What a negotiation step means for the host's tables, with the protocol's answer to on_open. */
  function OutcomeOf(o: Negotiation.Out, onOpen: CallbackAnswer): Outcome {
    match o.status
    case Completed => Agreed(onOpen)
    case Failure(e) => if e == Negotiation.ErrProtocol then Agreed(Refused) else Outcome.Failed
    case _ => Unfinished
  }

  /** The step that the record of a negotiating stream takes, what it means for the tables, and the progress. */
  method StepRecord(registry: seq<Negotiation.Id>, n: Negotiation.Stream, io: Negotiation.Io, onOpen: CallbackAnswer)
    returns (x: Outcome, progress: bool, next: Negotiation.Stream)
    requires Negotiation.Reached(registry, n) && n.Valid() && Negotiation.Negotiating(n)
    requires Negotiation.Obeys(n, io.read)
    ensures next == Negotiation.Step(registry, n, io).stream
    ensures x == OutcomeOf(Negotiation.Step(registry, n, io), onOpen)
    ensures x != Unfinished ==> progress
    ensures Negotiation.Reached(registry, next) && next.outbound == n.outbound
    ensures x == Unfinished ==> Negotiation.Negotiating(next)
  {
    hide Negotiation.Step, Negotiation.Reached;
    var o := Negotiation.Step(registry, n, io);
    Negotiation.ReachedPrimed(registry, n);
    Negotiation.EndReported(registry, n, io);
    Negotiation.GoesOn(registry, n, io);
    Negotiation.StepReached(registry, n, io);
    x, progress, next := OutcomeOf(o, onOpen), o.progress, o.stream;
  }

  /** A stream whose negotiation has ended is open or gone. */
  lemma EndedLeaves(h: Host, i: nat, x: Outcome, a: Released)
    requires i < |h.streams| && h.streams[i].state == StreamNegotiating && x != Unfinished
    ensures |Negotiate(h, i, x, a).streams| == |h.streams|
    ensures Negotiate(h, i, x, a).streams[i].state != StreamNegotiating
  {
    hide FailNegotiation, OpenRelease;
    var s := h.streams[i];
    FailedLeaves(h, i, a);
    FailedLeaves(h.(streams := h.streams[i := s.(state := StreamOpen)],
                    calls := h.calls + [Call(s.id, OnOpen, false)]), i, a);
    if s.open.Some? && s.open.value < |h.opens| { OpensOnly(h, s.open.value); }
  }

  lemma OpensOnly(h: Host, o: nat)
    requires o < |h.opens|
    ensures OpenRelease(h, o).streams == FailOpen(h, o).streams == h.streams
  {
  }

  lemma FailedLeaves(h: Host, i: nat, a: Released)
    requires i < |h.streams| && h.streams[i].state != StreamFree
    ensures FailNegotiation(h, i, a).streams == h.streams[i := NO_STREAM]
  {
    hide FailOpen, StreamRelease;
    var s := h.streams[i];
    ReleasedLeaves(h, i, a);
    if s.open.Some? && s.open.value < |h.opens| {
      OpensOnly(h, s.open.value);
      ReleasedLeaves(FailOpen(h, s.open.value), i, a);
    }
  }

  lemma ReleasedLeaves(h: Host, i: nat, a: Released)
    requires i < |h.streams| && h.streams[i].state != StreamFree
    ensures StreamRelease(h, i, a).streams == h.streams[i := NO_STREAM]
  {
  }

  method KeepRecord(host: LiveHost, i: nat, n: Negotiation.Stream)
    requires host.Valid() && i < host.streams.Length && Keeps(host.registry, host.streams[i], n)
    modifies host.records
    ensures host.Valid() && host.Model() == old(host.Model())
    ensures host.records[..] == old(host.records[..])[i := n]
  {
    hide Matched, Ring.Contents, Keeps;
    MatchedRecord(host.registry, host.streams[..], host.records[..], i, host.streams[i], n);
    ghost var was, s := host.records[..], host.streams[..];
    host.records[i] := n;
    assert host.records[..] == was[i := n] && s[i := s[i]] == s;
  }

  /**
    The stream under the cursor takes the step of `Negotiation` that its own record is due, on any input. A step that
    queues an event ends the negotiation, so it reports progress (Negotiation.EndReported); that a responder in the
    middle of an answer always has a frame to send is Negotiation.ReachedPrimed.
  */
  method NegotiationTurn(host: LiveHost) returns (stepped: bool, progress: bool, ok: bool, ghost labels: seq<Label>)
    requires host.Valid() && host.driving && host.len < host.ring.Length
    modifies host`len, host`lost, host`calls, host`negotiationCursor
    modifies host.ring, host.conns, host.opens, host.streams, host.records
    ensures host.Valid() && Went(old(host.Model()), labels, host.Model())
    ensures !progress ==> ok && host.Model() == old(host.Model())
    ensures ok <==> Sound(old(host.Model()), labels)
    ensures Received(labels) == []
    ensures host.negotiationCursor == (old(host.negotiationCursor) + 1) % host.streams.Length
    ensures stepped <==> old(host.streams[host.negotiationCursor]).state == StreamNegotiating
    ensures stepped ==>
      var i := old(host.negotiationCursor);
      Advances(host.registry, old(host.records[i]), host.records[i]) && (!progress ==> Stepped(labels, i))
    ensures host.records[..] ==
      old(host.records[..])[old(host.negotiationCursor) := host.records[old(host.negotiationCursor)]]
    ensures !stepped ==> host.records[..] == old(host.records[..]) && !progress
  {
    hide Sound, Exec, Matched, Negotiate, Ring.Contents, StepsTo, Advances;
    stepped, progress, ok, labels := false, false, true, [];
    WentNowhere(host.Model());
    var index := host.negotiationCursor;
    host.negotiationCursor := (host.negotiationCursor + 1) % host.streams.Length;
    if host.streams[index].state == StreamNegotiating {
      ghost var h := host.Model();
      var x, a;
      stepped := true;
      ghost var n := host.records[index];
      x, a, progress, ok := NegotiationStep(host, index);
      AdvancesBy(host.registry, n, x, host.records[index]);
      labels := [LNegotiate(index, x, a)];
      NoneReceived(labels);
      UnfinishedSame(h, index, a);
      assert labels[0].LNegotiate? && labels[0].stream == index;
      WentOne(h, labels[0]);
    }
  }

  lemma UnfinishedSame(h: Host, i: nat, a: Released)
    requires i < |h.streams|
    ensures Negotiate(h, i, Unfinished, a) == h
  {
  }

  lemma AdvancesBy(registry: seq<Negotiation.Id>, n: Negotiation.Stream, x: Outcome, next: Negotiation.Stream)
    requires StepsTo(registry, n, x, next)
    ensures Advances(registry, n, next)
  {
  }

  /** The record took one step of the negotiation. */
  ghost predicate Advances(registry: seq<Negotiation.Id>, n: Negotiation.Stream, next: Negotiation.Stream) {
    exists x :: StepsTo(registry, n, x, next)
  }

  /** host_stream_negotiation_step */
  method NegotiationStep(host: LiveHost, i: nat) returns (x: Outcome, a: Released, progress: bool, ok: bool)
    requires host.Valid() && i < host.streams.Length && host.streams[i].state == StreamNegotiating
    modifies host`len, host`lost, host`calls, host.ring, host.conns, host.opens, host.streams, host.records
    ensures host.Valid() && host.Model() == Negotiate(old(host.Model()), i, x, a)
    ensures !progress ==> x == Unfinished
    ensures ok <==> host.lost == old(host.lost)
    ensures StepsTo(host.registry, old(host.records[i]), x, host.records[i])
    ensures host.records[..] == old(host.records[..])[i := host.records[i]]
  {
    hide Matched, CompleteNegotiation, FailNegotiation, Negotiation.Step, Negotiation.Reached, Ring.Contents;
    var n := host.records[i];
    RecordIs(host.registry, host.streams[..], host.records[..], i);
    var onOpen: CallbackAnswer := *;
    a := *;
    var io := AnyInput(n, onOpen);
    var next;
    x, progress, next := StepRecord(host.registry, n, io, onOpen);
    if x != Unfinished { EndedLeaves(host.Model(), i, x, a); }
    ok := NegotiateSlot(host, i, x, a);
    KeepRecord(host, i, next);
    assert NegotiationInput(n, io, onOpen);
  }

  lemma RecordIs(registry: seq<Negotiation.Id>, streams: seq<Stream>, records: seq<Negotiation.Stream>, i: nat)
    requires Matched(registry, streams, records) && i < |streams| && streams[i].state == StreamNegotiating
    ensures records[i].outbound == streams[i].outbound && records[i].Valid() && Negotiation.Negotiating(records[i])
    ensures Negotiation.Reached(registry, records[i])
  {
    hide Negotiation.Reached;
    assert Keeps(registry, streams[i], records[i]);
    Negotiation.ReachedPrimed(registry, records[i]);
  }

  /** What a step learns from outside: from the transport, within its contract, and from the protocol. */
  predicate NegotiationInput(n: Negotiation.Stream, io: Negotiation.Io, onOpen: CallbackAnswer) {
    n.Valid() && Negotiation.Obeys(n, io.read) && io.onOpen == (onOpen != Refused)
  }

  /** The record takes one step of the negotiation, with this meaning for the host's tables. */
  ghost predicate StepsTo(registry: seq<Negotiation.Id>, n: Negotiation.Stream, x: Outcome, next: Negotiation.Stream) {
    exists io, onOpen :: NegotiationInput(n, io, onOpen)
      && x == OutcomeOf(Negotiation.Step(registry, n, io), onOpen) && next == Negotiation.Step(registry, n, io).stream
  }

  method AnyInput(n: Negotiation.Stream, onOpen: CallbackAnswer) returns (io: Negotiation.Io)
    requires n.Valid()
    ensures NegotiationInput(n, io, onOpen)
  {
    var any: Negotiation.Io := *;
    io := Negotiation.Io(any.write, Negotiation.ReadWouldBlock, onOpen != Refused);
    if Negotiation.Obeys(n, any.read) { io := io.(read := any.read); }
  }

  /** The record of each of the first `visited` slots from `start` that negotiates has taken a step, no other. */
  ghost predicate RecordsStepped(registry: seq<Negotiation.Id>, streams: seq<Stream>, before: seq<Negotiation.Stream>,
                                 after: seq<Negotiation.Stream>, start: nat, visited: nat)
    requires |streams| == |before| == |after| && start < |streams| && visited <= |streams|
  {
    forall j: nat :: j < |streams| ==>
      var i := Slot(start, j, |streams|);
      if j < visited && streams[i].state == StreamNegotiating then Advances(registry, before[i], after[i])
      else after[i] == before[i]
  }

  /** Each of the first `visited` slots from `start` that negotiates has taken a step without end. */
  ghost predicate AllStepped(streams: seq<Stream>, labels: seq<Label>, start: nat, visited: nat)
    requires start < |streams| && visited <= |streams|
  {
    forall j: nat :: j < visited && streams[Slot(start, j, |streams|)].state == StreamNegotiating ==>
      Stepped(labels, Slot(start, j, |streams|))
  }

  lemma MoreStepped(registry: seq<Negotiation.Id>, streams: seq<Stream>, before: seq<Negotiation.Stream>,
                    mid: seq<Negotiation.Stream>, after: seq<Negotiation.Stream>, start: nat, visited: nat, index: nat)
    requires |streams| == |before| == |mid| == |after| && start < |streams| && 0 < visited <= |streams|
    requires index == Slot(start, visited - 1, |streams|) && after == mid[index := after[index]]
    requires RecordsStepped(registry, streams, before, mid, start, visited - 1)
    requires if streams[index].state == StreamNegotiating then Advances(registry, mid[index], after[index])
             else after[index] == mid[index]
    ensures RecordsStepped(registry, streams, before, after, start, visited)
  {
    hide Advances, Slot;
    SlotApart(start, |streams|);
  }

  lemma MoreLabels(streams: seq<Stream>, labels: seq<Label>, more: seq<Label>, start: nat, visited: nat)
    requires start < |streams| && 0 < visited <= |streams| && AllStepped(streams, labels, start, visited - 1)
    requires
      var index := Slot(start, visited - 1, |streams|);
      streams[index].state == StreamNegotiating ==> Stepped(more, index)
    ensures AllStepped(streams, labels + more, start, visited)
  {
    hide Stepped, Slot;
    forall j: nat | j < visited && streams[Slot(start, j, |streams|)].state == StreamNegotiating
      ensures Stepped(labels + more, Slot(start, j, |streams|))
    {
      LabelsStay(labels, more, Slot(start, j, |streams|));
    }
  }

  lemma NoneStepped(registry: seq<Negotiation.Id>, streams: seq<Stream>, records: seq<Negotiation.Stream>, start: nat)
    requires |streams| == |records| && start < |streams|
    ensures RecordsStepped(registry, streams, records, records, start, 0)
  {
    hide Advances, Slot;
  }

  /**
    host_stream_negotiation_one, within the step budget of one drive: slot after slot, each negotiating one steps its
    record, until one makes progress, all have been visited, or the budget is used up.
  */
  method NegotiationOne(host: LiveHost, steps: nat, maxSteps: nat)
    returns (steps': nat, progress: bool, ok: bool, ghost visited: nat, ghost labels: seq<Label>)
    requires host.Valid() && host.driving && host.len < host.ring.Length
    modifies host`len, host`lost, host`calls, host`negotiationCursor
    modifies host.ring, host.conns, host.opens, host.streams, host.records
    ensures host.Valid() && Went(old(host.Model()), labels, host.Model()) && steps' >= steps
    ensures ok <==> Sound(old(host.Model()), labels)
    ensures Received(labels) == []
    ensures visited <= host.streams.Length
    ensures visited == host.streams.Length || progress || !ok || steps' >= maxSteps
    ensures RecordsStepped(host.registry, old(host.Model()).streams, old(host.records[..]), host.records[..],
                           old(host.negotiationCursor), visited)
    ensures !progress ==> ok && host.Model() == old(host.Model())
    ensures !progress ==> AllStepped(host.Model().streams, labels, old(host.negotiationCursor), visited)
  {
    hide Exec, Sound, Matched, Ring.Contents, Slot, AllStepped, RecordsStepped, Advances, Stepped;
    ghost var start, h0, records := host.negotiationCursor, host.Model(), host.records[..];
    labels := [];
    WentNowhere(h0);
    steps', progress, ok, visited := steps, false, true, 0;
    NoneStepped(host.registry, h0.streams, records, start);
    NoLabelsStepped(h0.streams, start);
    SlotFirst(start, host.streams.Length);
    var checked := 0;
    while checked < host.streams.Length && !progress && ok && steps' < maxSteps
      invariant host.Valid() && Went(h0, labels, host.Model()) && steps' >= steps && host.driving
      invariant visited == checked <= host.streams.Length && Received(labels) == []
      invariant checked < host.streams.Length ==> host.negotiationCursor == Slot(start, checked, host.streams.Length)
      invariant ok <==> Sound(h0, labels)
      invariant !progress ==> ok && host.Model() == h0 && AllStepped(h0.streams, labels, start, visited)
      invariant RecordsStepped(host.registry, h0.streams, records, host.records[..], start, visited)
      decreases host.streams.Length - checked
    {
      ghost var more, mid, index := [], host.records[..], host.negotiationCursor;
      var stepped;
      SlotNext(start, checked, host.streams.Length);
      checked, visited := checked + 1, visited + 1;
      stepped, progress, ok, more := NegotiationTurn(host);
      if stepped { steps' := steps' + 1; }
      WentThen(h0, labels, h0, more, host.Model());
      ReceivedThen(labels, more);
      MoreStepped(host.registry, h0.streams, records, mid, host.records[..], start, visited, index);
      if !progress { MoreLabels(h0.streams, labels, more, start, visited); }
      labels := labels + more;
    }
  }

  lemma NoLabelsStepped(streams: seq<Stream>, start: nat)
    requires start < |streams|
    ensures AllStepped(streams, [], start, 0)
  {
  }

  lemma SlotFirst(start: nat, n: nat)
    requires start < n
    ensures Slot(start, 0, n) == start
  {
  }

  /** host_protocol_call_event */
  method Notify(host: LiveHost, i: nat, s: Stream, kind: Callback, x: CallbackAnswer, a: Released)
    requires host.Valid() && i < host.streams.Length && s.state == StreamOpen
    modifies host`calls, host.conns, host.opens, host.streams
    ensures host.Valid() && host.Model() == CallEvent(old(host.Model()), i, s, kind, x, a)
  {
    hide StreamRelease;
    host.SetStreamSlot(i, s);
    if x != NoHandler {
      host.calls := host.calls + [Call(s.id, kind, x == Accepted)];
      if x == Refused { host.ReleaseStream(i, a); }
    }
  }

  /** One open stream of host_protocol_event_one. */
  method DeliverSlot(host: LiveHost, i: nat, x: CallbackAnswer, a: Released) returns (progress: bool, ok: bool)
    requires host.Valid() && i < host.streams.Length && host.streams[i].state == StreamOpen
    modifies host`calls, host.conns, host.opens, host.streams
    ensures host.Valid() && host.Model() == Deliver(old(host.Model()), i, x, a)
    ensures ok <==> !(x == Refused && Notifies(old(host.streams[i])))
    ensures progress <==> Notifies(old(host.streams[i]))
    ensures !progress ==> host.Model() == old(host.Model())
  {
    hide CallEvent, StreamRelease;
    var s := host.streams[i];
    progress, ok := true, x != Refused;
    if s.reset {
      Notify(host, i, s.(reset := false), OnReset, x, a);
    } else if s.closed {
      Notify(host, i, s.(closed := false), OnClosed, x, a);
      host.ReleaseStream(i, a);
    } else if s.readable {
      Notify(host, i, s.(readable := false), OnReadable, x, a);
    } else if s.writable {
      Notify(host, i, s.(writable := false), OnWritable, x, a);
    } else {
      progress, ok := false, true;
    }
  }

  /** The protocol of stream i was told what was foremost, and answered. */
  ghost predicate Told(h: Host, z: Host, i: nat)
    requires i < |h.streams|
  {
    exists x, a :: z == Deliver(h, i, x, a)
  }

  lemma ToldBy(h: Host, z: Host, i: nat, x: CallbackAnswer, a: Released)
    requires i < |h.streams| && z == Deliver(h, i, x, a)
    ensures Told(h, z, i)
  {
    hide Deliver;
  }

  /** The stream under the cursor, if it is open and has something pending */
  method DeliverTurn(host: LiveHost) returns (progress: bool, ok: bool, ghost labels: seq<Label>)
    requires host.Valid() && host.driving
    modifies host`calls, host`protocolCursor, host.conns, host.opens, host.streams
    ensures host.Valid() && Went(old(host.Model()), labels, host.Model())
    ensures ok <==> Sound(old(host.Model()), labels)
    ensures Received(labels) == []
    ensures host.protocolCursor == (old(host.protocolCursor) + 1) % host.streams.Length
    ensures progress <==> Notifies(old(host.streams[host.protocolCursor]))
    ensures progress ==> Told(old(host.Model()), host.Model(), old(host.protocolCursor))
    ensures !progress ==> ok && host.Model() == old(host.Model())
  {
    hide Deliver, Sound, Exec, Matched, Ring.Contents;
    progress, ok, labels := false, true, [];
    WentNowhere(host.Model());
    var index := host.protocolCursor;
    host.protocolCursor := (host.protocolCursor + 1) % host.streams.Length;
    if host.streams[index].state == StreamOpen {
      var x: CallbackAnswer := *;
      var a: Released := *;
      ghost var h := host.Model();
      progress, ok := DeliverSlot(host, index, x, a);
      labels := [LDeliver(index, x, a)];
      NoneReceived(labels);
      ToldBy(h, host.Model(), index, x, a);
      WentOne(h, labels[0]);
    }
  }

  /**
    host_protocol_event_one: round robin, at most one notification. It goes to the first stream from the cursor on that
    has one pending; if none has, nothing happens.
  */
  method DeliverOne(host: LiveHost) returns (progress: bool, ok: bool, ghost visited: nat, ghost labels: seq<Label>)
    requires host.Valid() && host.driving
    modifies host`calls, host`protocolCursor, host.conns, host.opens, host.streams
    ensures host.Valid() && Went(old(host.Model()), labels, host.Model())
    ensures ok <==> Sound(old(host.Model()), labels)
    ensures Received(labels) == []
    ensures progress ==>
      var h, start, n := old(host.Model()), old(host.protocolCursor), host.streams.Length;
      && visited < n && NoneOwes(h.streams, start, visited) && Notifies(h.streams[Slot(start, visited, n)])
      && Told(h, host.Model(), Slot(start, visited, n))
      && (visited + 1 < n ==> host.protocolCursor == Slot(start, visited + 1, n))
    ensures !progress ==> ok && host.Model() == old(host.Model())
    ensures !progress ==> forall i :: 0 <= i < host.streams.Length ==> !Notifies(host.streams[i])
  {
    hide Exec, Sound, Matched, Ring.Contents, Slot, Notifies, Told;
    ghost var start, h0 := host.protocolCursor, host.Model();
    labels := [];
    WentNowhere(h0);
    SlotFirst(start, host.streams.Length);
    progress, ok, visited := false, true, 0;
    var checked := 0;
    while checked < host.streams.Length && !progress && ok
      invariant host.Valid() && Went(h0, labels, host.Model()) && host.driving && Received(labels) == []
      invariant checked <= host.streams.Length && (!progress ==> visited == checked)
      invariant checked < host.streams.Length ==> host.protocolCursor == Slot(start, checked, host.streams.Length)
      invariant ok <==> Sound(h0, labels)
      invariant !progress ==> ok && host.Model() == h0 && NoneOwes(h0.streams, start, checked)
      invariant progress ==>
        && visited + 1 == checked && NoneOwes(h0.streams, start, visited)
        && Notifies(h0.streams[Slot(start, visited, host.streams.Length)])
        && Told(h0, host.Model(), Slot(start, visited, host.streams.Length))
      decreases host.streams.Length - checked
    {
      ghost var more := [];
      SlotNext(start, checked, host.streams.Length);
      checked := checked + 1;
      progress, ok, more := DeliverTurn(host);
      if !progress { visited := checked; }
      WentThen(h0, labels, h0, more, host.Model());
      ReceivedThen(labels, more);
      labels := labels + more;
    }
    if !progress { NobodyOwes(h0.streams, start); }
  }

  /** The first `visited` slots from `start` have nothing pending. */
  ghost predicate NoneOwes(streams: seq<Stream>, start: nat, visited: nat)
    requires start < |streams| && visited <= |streams|
  {
    forall j: nat :: j < visited ==> !Notifies(streams[Slot(start, j, |streams|)])
  }

  lemma NobodyOwes(streams: seq<Stream>, start: nat)
    requires start < |streams| && NoneOwes(streams, start, |streams|)
    ensures forall i :: 0 <= i < |streams| ==> !Notifies(streams[i])
  {
    hide Notifies;
    forall i | 0 <= i < |streams| ensures !Notifies(streams[i]) {
      var j := SlotHit(start, i, |streams|);
    }
  }

  /** host_conn_recycle_quiet: every connection in turn; a recyclable one stays only if the transport wants it. */
  method RecycleQuiet(host: LiveHost) returns (ok: bool, ghost labels: seq<Label>)
    requires host.Valid() && host.driving
    modifies host.conns
    ensures host.Valid() && Went(old(host.Model()), labels, host.Model())
    ensures ok <==> Sound(old(host.Model()), labels)
    ensures Received(labels) == []
    ensures ok ==> |labels| == host.conns.Length && StillKept(host.Model().conns, labels, host.conns.Length)
    ensures host.Model() == old(host.Model()).(conns := host.Model().conns)
  {
    hide Exec, Sound, TryRecycle, Matched, Ring.Contents, Kept;
    labels := [];
    ok := true;
    WentNowhere(host.Model());
    var c := 0;
    while c < host.conns.Length && ok
      invariant host.Valid() && c <= host.conns.Length && Went(old(host.Model()), labels, host.Model())
      invariant ok <==> Sound(old(host.Model()), labels)
      invariant host.driving && Received(labels) == [] && |labels| == c
      invariant ok ==> StillKept(host.Model().conns, labels, c)
      invariant host.Model() == old(host.Model()).(conns := host.Model().conns)
      decreases host.conns.Length - c
    {
      var a: Released := *;
      ghost var h := host.Model();
      var status := host.Recycle(c, a);
      ok := status == Ok;
      WentMore(old(host.Model()), labels, h, LRecycle(c, a));
      ReceivedThen(labels, [LRecycle(c, a)]);
      NoneReceived([LRecycle(c, a)]);
      if ok { MoreKept(h, host.Model(), labels, c, a); }
      RecycleOnlyConns(h, c, a);
      labels := labels + [LRecycle(c, a)];
      c := c + 1;
    }
  }

  /** Whichever of the first n connections could be recycled, the transport wants to keep. */
  ghost predicate StillKept(conns: seq<Conn>, labels: seq<Label>, n: nat)
    requires n <= |conns|
  {
    forall c: nat :: c < n && Recyclable(conns[c]) ==> Kept(labels, c)
  }

  lemma MoreKept(h: Host, z: Host, labels: seq<Label>, c: nat, a: Released)
    requires c < |h.conns| && z == TryRecycle(h, c, a) && RecycleStatus(h, c, a) == Ok && StillKept(h.conns, labels, c)
    ensures |z.conns| == |h.conns| && StillKept(z.conns, labels + [LRecycle(c, a)], c + 1)
  {
    var all := labels + [LRecycle(c, a)];
    assert all[|labels|] == LRecycle(c, a);
    forall d: nat | d < c + 1 && Recyclable(z.conns[d]) ensures Kept(all, d) {
      if d < c { LabelsStay(labels, [LRecycle(c, a)], d); }
    }
  }

  lemma RecycleOnlyConns(h: Host, c: nat, a: Released)
    ensures TryRecycle(h, c, a) == h.(conns := TryRecycle(h, c, a).conns)
  {
  }

  predicate Unreported(v: Open) { v.state == OpenWaiting || v.state == OpenNegotiating }

  /** host_has_active_work */
  method HasActiveWork(host: LiveHost) returns (active: bool)
    requires host.Valid()
    ensures active == ActiveWork(host.Model())
  {
    active := false;
    var k := 0;
    while k < host.conns.Length && !active
      invariant k <= host.conns.Length
      invariant active ==> exists j :: 0 <= j < host.conns.Length && host.conns[j].active && !host.conns[j].closed
      invariant !active ==> forall j :: 0 <= j < k ==> !(host.conns[j].active && !host.conns[j].closed)
    {
      active := host.conns[k].active && !host.conns[k].closed;
      k := k + 1;
    }
    if active { return; }
    k := 0;
    while k < host.streams.Length && !active
      invariant k <= host.streams.Length
      invariant active ==> exists j :: 0 <= j < host.streams.Length && host.streams[j].state != StreamFree
      invariant !active ==> forall j :: 0 <= j < k ==> host.streams[j].state == StreamFree
    {
      active := host.streams[k].state != StreamFree;
      k := k + 1;
    }
    if active { return; }
    k := 0;
    while k < host.dials.Length && !active
      invariant k <= host.dials.Length
      invariant active ==> exists j :: 0 <= j < host.dials.Length && host.dials[j].state == DialPending
      invariant !active ==> forall j :: 0 <= j < k ==> host.dials[j].state != DialPending
    {
      active := host.dials[k].state == DialPending;
      k := k + 1;
    }
    if active { return; }
    k := 0;
    while k < host.opens.Length && !active
      invariant k <= host.opens.Length
      invariant active ==> exists j :: 0 <= j < host.opens.Length && Unreported(host.opens[j])
      invariant !active ==> forall j :: 0 <= j < k ==> !Unreported(host.opens[j])
    {
      active := Unreported(host.opens[k]);
      k := k + 1;
    }
  }

  /** host_close_maybe_complete: a closing host without work is closed, and says so. */
  method CloseMaybeComplete(host: LiveHost) returns (progress: bool, ghost labels: seq<Label>)
    requires host.Valid() && host.driving && host.len < host.ring.Length
    modifies host`phase, host`len, host`lost, host.ring
    ensures host.Valid() && Went(old(host.Model()), labels, host.Model())
    ensures Sound(old(host.Model()), labels)
    ensures Received(labels) == []
    ensures progress <==> old(host.phase) == Closing && !ActiveWork(old(host.Model()))
    ensures progress ==> host.phase == Closed
    ensures !progress ==> host.Model() == old(host.Model())
  {
    hide Exec, Sound, ActiveWork, Matched, Ring.Contents;
    ghost var h := host.Model();
    progress := false;
    labels := [LComplete];
    NoneReceived(labels);
    WentOne(h, LComplete);
    var active := HasActiveWork(host);
    if host.phase == Closing && !active {
      progress := host.EventPush(Event(HostClosed, None, None, None, None));
      host.phase := Closed;
    }
  }

  // ----------------------------------------------------------------------------- the loop

  /**
    A host with nothing left to do in this drive: no open stream has a notification pending, the transport has nothing
    more to report (or the gate is shut), no quiet connection is left that the transport would let go; and, as far as
    the event ring has room: every negotiating stream has taken a step (or the budget is used up), and a closing
    host still has work.
  */
  ghost predicate Idle(h: Host, left: seq<TransportEvent>, labels: seq<Label>, steps: nat, maxSteps: nat) {
    && (forall i :: 0 <= i < |h.streams| ==> !Notifies(h.streams[i]))
    && (left == [] || !TransportGate(h))
    && StillKept(h.conns, labels, |h.conns|)
    && (PushFits(h) ==>
          && (steps >= maxSteps || NegotiatorsStepped(h.streams, labels))
          && (h.phase == Closing ==> ActiveWork(h)))
  }

  ghost predicate NegotiatorsStepped(streams: seq<Stream>, labels: seq<Label>) {
    forall i: nat :: i < |streams| && streams[i].state == StreamNegotiating ==> Stepped(labels, i)
  }

  /** And every open that still waits has been asked for in this drive. */
  ghost predicate Rested(h: Host, left: seq<TransportEvent>, labels: seq<Label>, steps: nat, maxSteps: nat) {
    && Idle(h, left, labels, steps, maxSteps)
    && (PushFits(h) ==> forall o: nat :: o < |h.opens| && h.opens[o].state == OpenWaiting ==> Asked(labels, o))
  }

  lemma IdleMore(h: Host, left: seq<TransportEvent>, labels: seq<Label>, more: seq<Label>, steps: nat, maxSteps: nat)
    requires Idle(h, left, more, steps, maxSteps)
    ensures Idle(h, left, labels + more, steps, maxSteps)
  {
    hide Notifies, TransportGate, ActiveWork, Stepped, Kept;
    forall i: nat
      ensures (Stepped(more, i) ==> Stepped(labels + more, i)) && (Kept(more, i) ==> Kept(labels + more, i))
    {
      LabelsStay(labels, more, i);
    }
  }

  lemma EveryoneStepped(streams: seq<Stream>, labels: seq<Label>, start: nat)
    requires start < |streams| && AllStepped(streams, labels, start, |streams|)
    ensures NegotiatorsStepped(streams, labels)
  {
    hide Stepped;
    forall i: nat | i < |streams| && streams[i].state == StreamNegotiating ensures Stepped(labels, i) {
      var j := SlotHit(start, i, |streams|);
    }
  }

  lemma EveryoneAsked(opens: seq<Open>, labels: seq<Label>, start: nat)
    requires start < |opens| && WaitersAsked(opens, labels, start, 0, |opens|)
    ensures forall o: nat :: o < |opens| && opens[o].state == OpenWaiting ==> Asked(labels, o)
  {
    hide Asked;
    forall o: nat | o < |opens| && opens[o].state == OpenWaiting ensures Asked(labels, o) {
      var j := SlotHit(start, o, |opens|);
    }
  }

  /** What was asked for before stays asked for. */
  lemma AskedMore(h: Host, z: Host, labels: seq<Label>, more: seq<Label>, start: nat, mid: nat, hi: nat)
    requires WaitKept(h, z) && start < |h.opens| && mid <= hi <= |h.opens|
    requires WaitersAsked(h.opens, labels, start, 0, mid) && WaitersAsked(z.opens, more, start, mid, hi)
    ensures WaitersAsked(z.opens, labels + more, start, 0, hi)
  {
    hide Asked, Slot;
    forall j: nat | j < hi && z.opens[Slot(start, j, |z.opens|)].state == OpenWaiting
      ensures Asked(labels + more, Slot(start, j, |z.opens|))
    {
      LabelsStay(labels, more, Slot(start, j, |z.opens|));
    }
  }

  /** The bound on the turns of the loop */
  function TurnLimit(h: Host, maxSteps: nat): nat {
    h.eventCapacity + |h.streams| + |h.opens| + maxSteps + 8
  }

  /**
    libp2p_host_drive. Everything it does to the tables is a sequence of enabled steps, so it keeps the
    invariant, and no push inside it finds the ring full. It fails exactly on a closed host, when the transport
    reports an error of its own, and when one of its steps is faulty. It takes the transport's events in order, and
    unless it fails or runs into its bound it does not return before there is nothing left to do.
  */
  method Drive(host: LiveHost, net: Arrivals, maxSteps: nat)
    returns (ok: bool, ghost broken: bool, ghost turns: nat, ghost steps: nat, ghost labels: seq<Label>)
    requires host.Valid() && !host.driving
    modifies net, host, host.ring, host.conns, host.opens, host.streams, host.dials, host.records
    ensures host.Valid() && !host.driving && Exec(old(host.Model()), labels) == Some(host.Model())
    ensures old(host.phase) == Closed ==> labels == []
    ensures ok <==> old(host.phase) != Closed && !broken && Sound(old(host.Model()), labels)
    ensures HostInv.Inv(old(host.Model())) ==> HostInv.Inv(host.Model()) && host.lost == 0
    ensures InOrder(old(net.ready), Received(labels), net.ready)
    ensures ok && turns < TurnLimit(old(host.Model()), maxSteps) ==>
      Rested(host.Model(), net.ready, labels, steps, maxSteps)
    ensures ok ==> |labels| >= turns * host.conns.Length
  {
    hide Exec, Sound, HostInv.Inv, Matched, Ring.Contents, Rested;
    ghost var h0 := host.Model();
    turns, steps := 0, 0;
    if host.phase == Closed {
      ok, broken, labels := false, false, [];
      NoLabels(h0);
    } else {
      host.driving := true;
      ghost var h1 := host.Model();
      ok := *;
      ok := ok || host.ring.Length - host.len <= host.opens.Length;
      broken, labels := !ok, [];
      WentNowhere(h1);
      if ok { ok, broken, turns, steps, labels := DriveSteps(host, net, maxSteps); }
      ghost var h2 := host.Model();
      ExecBracket(h0, labels, h2);
      host.driving := false;
      BracketKeeps(h2, net.ready, labels, steps, maxSteps);
      labels := [LDrive] + labels + [LReturn];
    }
    ExecLosesNothing(h0, labels, host.Model());
  }

  /** Starting and returning change nothing of that. */
  lemma BracketKeeps(h: Host, left: seq<TransportEvent>, labels: seq<Label>, steps: nat, maxSteps: nat)
    ensures Received([LDrive] + labels + [LReturn]) == Received(labels)
    ensures Rested(h, left, labels, steps, maxSteps) ==>
      Rested(h.(driving := false), left, [LDrive] + labels + [LReturn], steps, maxSteps)
  {
    hide Notifies, Asked, Stepped, Kept, Idle;
    ReceivedThen([LDrive] + labels, [LReturn]);
    ReceivedThen([LDrive], labels);
    NoneReceived([LDrive]);
    NoneReceived([LReturn]);
    if Rested(h, left, labels, steps, maxSteps) {
      IdleMore(h, left, [LDrive], labels, steps, maxSteps);
      IdleThen(h, left, [LDrive] + labels, [LReturn], steps, maxSteps);
      forall o: nat ensures Asked(labels, o) ==> Asked([LDrive] + labels + [LReturn], o) {
        LabelsStay([LDrive], labels, o);
        LabelsStay([LDrive] + labels, [LReturn], o);
      }
    }
  }

  lemma IdleThen(h: Host, left: seq<TransportEvent>, labels: seq<Label>, more: seq<Label>, steps: nat, maxSteps: nat)
    requires Idle(h, left, labels, steps, maxSteps)
    ensures Idle(h.(driving := false), left, labels + more, steps, maxSteps)
  {
    hide Notifies, Stepped, Kept;
    forall i: nat
      ensures (Stepped(labels, i) ==> Stepped(labels + more, i)) && (Kept(labels, i) ==> Kept(labels + more, i))
    {
      LabelsStay(labels, more, i);
    }
  }

  method DriveSteps(host: LiveHost, net: Arrivals, maxSteps: nat)
    returns (ok: bool, ghost broken: bool, ghost turns: nat, ghost steps: nat, ghost labels: seq<Label>)
    requires host.Valid() && host.driving
    modifies net, host, host.ring, host.conns, host.opens, host.streams, host.dials, host.records
    ensures host.Valid() && host.driving && Went(old(host.Model()), labels, host.Model())
    ensures ok <==> !broken && Sound(old(host.Model()), labels)
    ensures InOrder(old(net.ready), Received(labels), net.ready)
    ensures ok && turns < TurnLimit(old(host.Model()), maxSteps) ==>
      Rested(host.Model(), net.ready, labels, steps, maxSteps)
    ensures ok ==> |labels| >= turns * host.conns.Length
  {
    hide Exec, Sound, Matched, Ring.Contents, Idle, Asked, InOrder, WaitKept;
    ghost var h0, start := host.Model(), host.openCursor;
    ok, broken, labels, turns := true, false, [], 0;
    WentNowhere(h0);
    NothingYet(h0, start, net.ready);
    SlotFirst(start, host.opens.Length);
    var progress, guard, checked, taken := true, 0, 0, 0;
    var limit := host.ring.Length + host.streams.Length + host.opens.Length + maxSteps + 8;
    while progress && ok && guard < limit
      invariant host.Valid() && host.driving && Went(h0, labels, host.Model())
      invariant ok <==> !broken && Sound(h0, labels)
      invariant InOrder(old(net.ready), Received(labels), net.ready)
      invariant checked <= host.opens.Length
      invariant checked < host.opens.Length ==> host.openCursor == Slot(start, checked, host.opens.Length)
      invariant WaitersAsked(host.Model().opens, labels, start, 0, checked)
      invariant ok && !progress ==>
        && Idle(host.Model(), net.ready, labels, taken, maxSteps)
        && (PushFits(host.Model()) ==> checked == host.opens.Length)
      invariant guard == turns <= limit && (ok ==> |labels| >= turns * host.conns.Length)
      decreases limit - guard
    {
      guard, turns := guard + 1, turns + 1;
      ghost var h, before, mid, was, more := host.Model(), labels, net.ready, checked, [];
      checked, taken, progress, ok, broken, more := DriveOnce(host, net, checked, taken, maxSteps, start);
      WentThen(h0, labels, h, more, host.Model());
      ReceivedThen(labels, more);
      InOrderThen(old(net.ready), Received(labels), mid, Received(more), net.ready);
      ExecWaits(h, more, host.Model());
      AskedMore(h, host.Model(), before, more, start, was, checked);
      if ok && !progress { IdleMore(host.Model(), net.ready, labels, more, taken, maxSteps); }
      OneTurnMore(turns, host.conns.Length);
      labels := labels + more;
    }
    steps := taken;
    if checked == host.opens.Length { EveryoneAsked(host.Model().opens, labels, start); }
  }

  lemma OneTurnMore(turns: nat, n: nat)
    requires turns > 0
    ensures turns * n == (turns - 1) * n + n
  {
  }

  lemma NothingYet(h: Host, start: nat, ready: seq<TransportEvent>)
    requires start < |h.opens|
    ensures WaitersAsked(h.opens, [], start, 0, 0) && InOrder(ready, [], ready)
  {
  }

  /** One turn of the loop, behind its guards. A turn without progress leaves nothing to do. */
  method DriveOnce(host: LiveHost, net: Arrivals, checked: nat, steps: nat, maxSteps: nat, ghost start: nat)
    returns (checked': nat, steps': nat, progress: bool, ok: bool, ghost broken: bool, ghost labels: seq<Label>)
    requires host.Valid() && host.driving && start < host.opens.Length && checked <= host.opens.Length
    requires checked < host.opens.Length ==> host.openCursor == Slot(start, checked, host.opens.Length)
    modifies net, host, host.ring, host.conns, host.opens, host.streams, host.dials, host.records
    ensures host.Valid() && host.driving && Went(old(host.Model()), labels, host.Model())
    ensures ok <==> !broken && Sound(old(host.Model()), labels)
    ensures InOrder(old(net.ready), Received(labels), net.ready)
    ensures checked <= checked' <= host.opens.Length
    ensures checked' < host.opens.Length ==> host.openCursor == Slot(start, checked', host.opens.Length)
    ensures WaitersAsked(host.Model().opens, labels, start, checked, checked')
    ensures ok && !progress ==>
      && Idle(host.Model(), net.ready, labels, steps', maxSteps)
      && (PushFits(host.Model()) ==> checked' == host.opens.Length)
    ensures ok ==> |labels| >= host.conns.Length
  {
    hide Exec, Sound, Matched, Ring.Contents, Asked, WaitKept, InOrder, Slot;
    checked', steps', progress, ok, broken, labels := TakeIn(host, net, checked, steps, maxSteps, start);
    ghost var h := host.Model();
    if ok {
      ghost var more, before := [], labels;
      var moved;
      moved, ok, more := HandOut(host);
      WentThen(old(host.Model()), labels, h, more, host.Model());
      ReceivedThen(labels, more);
      assert Received(labels) + [] == Received(labels);
      ExecWaits(h, more, host.Model());
      AskedStays(h, host.Model(), before, more, start, checked, checked');
      if ok && !progress && !moved { TurnIdle(h, host.Model(), net.ready, before, more, steps', maxSteps); }
      progress := progress || moved;
      labels := labels + more;
    }
  }

  lemma AskedStays(h: Host, z: Host, labels: seq<Label>, more: seq<Label>, start: nat, lo: nat, hi: nat)
    requires WaitKept(h, z) && start < |h.opens| && lo <= hi <= |h.opens|
    requires WaitersAsked(h.opens, labels, start, lo, hi)
    ensures WaitersAsked(z.opens, labels + more, start, lo, hi)
  {
    hide Asked, Slot;
    forall j: nat | lo <= j < hi && z.opens[Slot(start, j, |z.opens|)].state == OpenWaiting
      ensures Asked(labels + more, Slot(start, j, |z.opens|))
    {
      LabelsStay(labels, more, Slot(start, j, |z.opens|));
    }
  }

  /** Nothing was taken in, nothing handed out. */
  lemma TurnIdle(h: Host, z: Host, left: seq<TransportEvent>, labels: seq<Label>, more: seq<Label>, steps: nat,
                 maxSteps: nat)
    requires z == h.(conns := z.conns) && (left == [] || !TransportGate(h))
    requires PushFits(h) ==> steps >= maxSteps || NegotiatorsStepped(h.streams, labels)
    requires forall i :: 0 <= i < |z.streams| ==> !Notifies(z.streams[i])
    requires StillKept(z.conns, more, |z.conns|) && (PushFits(z) && z.phase == Closing ==> ActiveWork(z))
    ensures Idle(z, left, labels + more, steps, maxSteps)
  {
    hide Notifies, Stepped, Kept, ActiveWork;
    forall i: nat
      ensures (Stepped(labels, i) ==> Stepped(labels + more, i)) && (Kept(more, i) ==> Kept(labels + more, i))
    {
      LabelsStay(labels, more, i);
    }
  }

  /** Transport event and retry */
  method TakeFirst(host: LiveHost, net: Arrivals, checked: nat, ghost start: nat)
    returns (checked': nat, progress: bool, ok: bool, ghost broken: bool, ghost labels: seq<Label>)
    requires host.Valid() && host.driving && start < host.opens.Length && checked <= host.opens.Length
    requires checked < host.opens.Length ==> host.openCursor == Slot(start, checked, host.opens.Length)
    modifies net, host, host.ring, host.conns, host.opens, host.streams, host.dials, host.records
    ensures host.Valid() && host.driving && Went(old(host.Model()), labels, host.Model())
    ensures ok <==> !broken && Sound(old(host.Model()), labels)
    ensures InOrder(old(net.ready), Received(labels), net.ready)
    ensures checked <= checked' <= host.opens.Length
    ensures checked' < host.opens.Length ==> host.openCursor == Slot(start, checked', host.opens.Length)
    ensures WaitersAsked(host.Model().opens, labels, start, checked, checked')
    ensures ok && !progress ==>
      var h := host.Model();
      (net.ready == [] || !TransportGate(h)) && (PushFits(h) ==> checked' == |h.opens|)
  {
    hide Exec, Sound, Matched, Ring.Contents, Asked, InOrder, Slot;
    ghost var h0 := host.Model();
    checked', progress, ok, broken, labels := checked, false, true, false, [];
    WentNowhere(h0);
    NothingYet(h0, start, net.ready);
    if host.ring.Length - host.len > host.opens.Length {
      progress, ok, broken, labels := TransportOne(host, net);
    }
    ghost var h := host.Model();
    NoneBetween(h.opens, labels, start, checked);
    if ok && host.len < host.ring.Length && checked' < host.opens.Length {
      ghost var more;
      var moved;
      checked', moved, ok, more := RetryOne(host, checked', start);
      progress := progress || moved;
      WentThen(h0, labels, h, more, host.Model());
      ReceivedThen(labels, more);
      assert Received(labels) + [] == Received(labels);
      AskedBehind(host.Model().opens, labels, more, start, checked, checked');
      labels := labels + more;
    }
  }

  /** Transport event, retry and negotiation: the steps that may report an open. */
  method TakeIn(host: LiveHost, net: Arrivals, checked: nat, steps: nat, maxSteps: nat, ghost start: nat)
    returns (checked': nat, steps': nat, progress: bool, ok: bool, ghost broken: bool, ghost labels: seq<Label>)
    requires host.Valid() && host.driving && start < host.opens.Length && checked <= host.opens.Length
    requires checked < host.opens.Length ==> host.openCursor == Slot(start, checked, host.opens.Length)
    modifies net, host, host.ring, host.conns, host.opens, host.streams, host.dials, host.records
    ensures host.Valid() && host.driving && Went(old(host.Model()), labels, host.Model())
    ensures ok <==> !broken && Sound(old(host.Model()), labels)
    ensures InOrder(old(net.ready), Received(labels), net.ready)
    ensures checked <= checked' <= host.opens.Length
    ensures checked' < host.opens.Length ==> host.openCursor == Slot(start, checked', host.opens.Length)
    ensures WaitersAsked(host.Model().opens, labels, start, checked, checked')
    ensures ok && !progress ==>
      var h := host.Model();
      && (net.ready == [] || !TransportGate(h))
      && (PushFits(h) ==> checked' == |h.opens| && (steps' >= maxSteps || NegotiatorsStepped(h.streams, labels)))
  {
    hide Exec, Sound, Matched, Ring.Contents, Asked, WaitKept, InOrder, Slot, Stepped, AllStepped, RecordsStepped;
    hide WaitersAsked, NegotiatorsStepped;
    ghost var h0 := host.Model();
    steps' := steps;
    checked', progress, ok, broken, labels := TakeFirst(host, net, checked, start);
    ghost var h := host.Model();
    if ok && host.len < host.ring.Length && steps' < maxSteps {
      ghost var cursor, before, visited, more := host.negotiationCursor, labels, 0, [];
      var moved;
      steps', moved, ok, visited, more := NegotiationOne(host, steps', maxSteps);
      progress := progress || moved;
      WentThen(h0, labels, h, more, host.Model());
      ReceivedThen(labels, more);
      assert Received(labels) + [] == Received(labels);
      ExecWaits(h, more, host.Model());
      AskedStays(h, host.Model(), before, more, start, checked, checked');
      if !moved && visited == host.streams.Length {
        EveryoneStepped(h.streams, more, cursor);
        SteppedBehind(h.streams, before, more);
      }
      labels := labels + more;
    }
  }

  lemma NoneBetween(opens: seq<Open>, labels: seq<Label>, start: nat, k: nat)
    requires start < |opens| && k <= |opens|
    ensures WaitersAsked(opens, labels, start, k, k)
  {
  }

  lemma AskedBehind(opens: seq<Open>, labels: seq<Label>, more: seq<Label>, start: nat, lo: nat, hi: nat)
    requires start < |opens| && hi <= |opens| && WaitersAsked(opens, more, start, lo, hi)
    ensures WaitersAsked(opens, labels + more, start, lo, hi)
  {
    hide Asked, Slot;
    forall j: nat | lo <= j < hi && opens[Slot(start, j, |opens|)].state == OpenWaiting
      ensures Asked(labels + more, Slot(start, j, |opens|))
    {
      LabelsStay(labels, more, Slot(start, j, |opens|));
    }
  }

  lemma SteppedBehind(streams: seq<Stream>, labels: seq<Label>, more: seq<Label>)
    requires NegotiatorsStepped(streams, more)
    ensures NegotiatorsStepped(streams, labels + more)
  {
    hide Stepped;
    forall i: nat | i < |streams| && streams[i].state == StreamNegotiating ensures Stepped(labels + more, i) {
      LabelsStay(labels, more, i);
    }
  }

  /** Notifications, recycling and the end of a close. */
  method HandOut(host: LiveHost) returns (progress: bool, ok: bool, ghost labels: seq<Label>)
    requires host.Valid() && host.driving
    modifies host, host.ring, host.conns, host.opens, host.streams, host.dials, host.records
    ensures host.Valid() && host.driving && Went(old(host.Model()), labels, host.Model())
    ensures ok <==> Sound(old(host.Model()), labels)
    ensures Received(labels) == []
    ensures host.openCursor == old(host.openCursor)
    ensures ok && !progress ==>
      var h, z := old(host.Model()), host.Model();
      && z == h.(conns := z.conns) && (forall i :: 0 <= i < |z.streams| ==> !Notifies(z.streams[i]))
      && StillKept(z.conns, labels, |z.conns|) && (PushFits(z) && z.phase == Closing ==> ActiveWork(z))
    ensures ok ==> |labels| >= host.conns.Length
  {
    hide Exec, Sound, Matched, Ring.Contents, Notifies, Kept, ActiveWork;
    ghost var h0, more, visited := host.Model(), [], 0;
    var moved := false;
    progress, ok, visited, labels := DeliverOne(host);
    ghost var h := host.Model();
    if ok {
      ok, more := RecycleQuiet(host);
      WentThen(h0, labels, h, more, host.Model());
      ReceivedThen(labels, more);
      if ok { KeptBehind(host.Model().conns, labels, more); }
      labels := labels + more;
    }
    h := host.Model();
    if ok && host.len < host.ring.Length {
      ghost var before := labels;
      moved, more := CloseMaybeComplete(host);
      progress := progress || moved;
      WentThen(h0, labels, h, more, host.Model());
      ReceivedThen(labels, more);
      KeptAhead(h.conns, before, more);
      labels := labels + more;
    }
  }

  lemma KeptBehind(conns: seq<Conn>, labels: seq<Label>, more: seq<Label>)
    requires StillKept(conns, more, |conns|)
    ensures StillKept(conns, labels + more, |conns|)
  {
    hide Kept;
    forall c: nat | c < |conns| && Recyclable(conns[c]) ensures Kept(labels + more, c) { LabelsStay(labels, more, c); }
  }

  lemma KeptAhead(conns: seq<Conn>, labels: seq<Label>, more: seq<Label>)
    requires StillKept(conns, labels, |conns|)
    ensures StillKept(conns, labels + more, |conns|)
  {
    hide Kept;
    forall c: nat | c < |conns| && Recyclable(conns[c]) ensures Kept(labels + more, c) { LabelsStay(labels, more, c); }
  }
}
