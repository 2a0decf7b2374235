/** What holds of the host over every run. */
module HostProofs {
  import opened Bytes
  import opened Host
  import opened HostInv
  import opened HostTables
  import opened HostRelease
  import opened HostOpening
  import opened HostEvents
  import opened HostRuns
  import opened HostLife
  import opened HostFrame

  /** No event push ever finds the ring full, whatever connection closes take with them. */
  lemma NoEventLost(m: Limits, labels: seq<Label>)
    requires ValidLimits(m) && Run(m, labels).Some?
    ensures Run(m, labels).value.lost == 0
  {
    RunKeeps(m, labels);
  }

  // ------------------------------------------------------------- handle lifetime

  /** Every handle a stream, an open or a queued event holds is live; CONN_CLOSED is the last word. */
  lemma HandlesLive(m: Limits, labels: seq<Label>)
    requires ValidLimits(m) && Run(m, labels).Some?
    ensures
      var h := Run(m, labels).value;
      && (forall i :: 0 <= i < |h.streams| && h.streams[i].state != StreamFree ==>
            h.streams[i].conn < |h.conns| && h.conns[h.streams[i].conn].active)
      && (forall o :: 0 <= o < |h.opens| && h.opens[o].state != OpenFree ==>
            h.opens[o].conn < |h.conns| && h.conns[h.opens[o].conn].active)
      && (forall k :: 0 <= k < |h.events| && h.events[k].conn.Some? ==>
            h.events[k].conn.value < |h.conns| && h.conns[h.events[k].conn.value].active)
      && (forall j, k :: 0 <= j < k < |h.events| && h.events[j].kind == ConnClosed ==>
            h.events[k].conn != h.events[j].conn)
  {
    RunKeeps(m, labels);
    var h := Run(m, labels).value;
    StreamConn(h);
    OpenConn(h);
    EventConn(h);
    assert Queue(h.conns, h.opens, h.events);
    hide Run, Inv, EventOk;
  }

  lemma StreamConn(h: Host)
    requires Inv(h)
    ensures forall i :: 0 <= i < |h.streams| && h.streams[i].state != StreamFree ==>
      h.streams[i].conn < |h.conns| && h.conns[h.streams[i].conn].active
  {
    hide Queued, History, LastWord, Sizes, Zeroed, Owners, Tallies;
  }

  lemma OpenConn(h: Host)
    requires Inv(h)
    ensures forall o :: 0 <= o < |h.opens| && h.opens[o].state != OpenFree ==>
      h.opens[o].conn < |h.conns| && h.conns[h.opens[o].conn].active
  {
    hide Queued, History, LastWord, Sizes, Zeroed, Owners, Tallies;
  }

  lemma EventConn(h: Host)
    requires Inv(h)
    ensures forall k :: 0 <= k < |h.events| && h.events[k].conn.Some? ==>
      h.events[k].conn.value < |h.conns| && h.conns[h.events[k].conn.value].active
  {
    hide Structure, History, LastWord, Sizes, Covered, Announced, DialsOk;
  }

  /** The state after one more label. */
  lemma {:induction false} RunStep(m: Limits, labels: seq<Label>, l: Label)
    requires Run(m, labels + [l]).Some?
    ensures Run(m, labels).Some? && Enabled(Run(m, labels).value, l)
    ensures Run(m, labels + [l]).value == Apply(Run(m, labels).value, l)
  {
    hide Apply, Enabled;
    assert (labels + [l])[..|labels|] == labels;
  }

  /**
    A slot goes unused, up, closed, read, unused: it is zeroed only once its CONN_CLOSED has been consumed,
    and at that moment no stream, open or queued event names it.
  */
  lemma RecycledSafely(m: Limits, labels: seq<Label>, l: Label, c: nat)
    requires ValidLimits(m) && Run(m, labels + [l]).Some?
    ensures Run(m, labels).Some?
    ensures
      var h, z := Run(m, labels).value, Run(m, labels + [l]).value;
      c < |h.conns| ==>
        && |z.conns| == |h.conns| && Moves(h, l, c, StageOf(h.conns[c]), StageOf(z.conns[c]))
        && (StageOf(z.conns[c]) == Unused ==>
              && z.conns[c] == NO_CONN
              && (forall i :: 0 <= i < |z.streams| && z.streams[i].state != StreamFree ==> z.streams[i].conn != c)
              && (forall o :: 0 <= o < |z.opens| && z.opens[o].state != OpenFree ==> z.opens[o].conn != c)
              && (forall k :: 0 <= k < |z.events| ==> z.events[k].conn != Some(c)))
  {
    RunStep(m, labels, l);
    RunKeeps(m, labels);
    RunKeeps(m, labels + [l]);
    HandlesLive(m, labels + [l]);
    var h := Run(m, labels).value;
    if c < |h.conns| {
      StepMoves(h, l, c);
      assert StageOf(Apply(h, l).conns[c]) == Unused ==> Apply(h, l).conns[c] == NO_CONN by {
        ZeroedConn(Apply(h, l), c);
      }
      hide Inv, Apply, Run, Moves;
    }
  }

  lemma ZeroedConn(h: Host, c: nat)
    requires Inv(h) && c < |h.conns|
    ensures StageOf(h.conns[c]) == Unused ==> h.conns[c] == NO_CONN
  {
    hide Queued, History, LastWord, Links, Owners, Tallies;
  }

  // ------------------------------------------------------- exactly-once completion

  /** What one step adds to the accepted and to the reported open attempts. */
  lemma OpensLedger(h: Host, l: Label)
    requires Inv(h) && Enabled(h, l)
    ensures Apply(h, l).issued == h.issued +
      (if l.LOpen? && OpenStream(h, l.conn, l.known, l.userData, l.answer).1 == Ok then 1 else 0)
    ensures Apply(h, l).resolved == h.resolved +
      (if l.LNextEvent? && h.events[0].open.Some? && h.events[0].open.value < |h.opens|
       then [h.opens[h.events[0].open.value].id]
       else if l.LCancel? && l.open < |h.opens| && Cancel(h, l.open, l.userData, l.released).1 == Ok
       then [h.opens[l.open].id]
       else [])
  {
    hide Inv, OnTransport, Negotiate, Deliver, RetryOpen, OpenStream, Cancel, NextEvent, NoNews, TransportObeys;
    match l
    case LTransport(e, a) => TransportAside(h, e, a);
    case LNegotiate(i, x, a) => NegotiateLedger(h, i, x, a);
    case LDeliver(i, x, a) => DeliverLedger(h, i, x, a);
    case LRetry(o, a) => RetryAside(h, o, a);
    case LOpen(c, known, userData, a) => OpenLedger(h, c, known, userData, a);
    case LCancel(o, userData, a) => CancelLedger(h, o, userData, a);
    case LNextEvent(a) => NextLedger(h, a);
    case _ =>
  }

  lemma NegotiateLedger(h: Host, i: nat, x: Outcome, a: Released)
    requires i < |h.streams|
    ensures Bookkept(h, Negotiate(h, i, x, a))
  {
    hide FailNegotiation, CompleteNegotiation;
    FailNegotiationAside(h, i, a);
    if x.Agreed? { CompleteLedger(h, i, x.onOpen, a); }
  }

  lemma CompleteLedger(h: Host, i: nat, onOpen: CallbackAnswer, a: Released)
    requires i < |h.streams|
    ensures Bookkept(h, CompleteNegotiation(h, i, onOpen, a))
  {
    hide FailNegotiation, OpenRelease;
    var s := h.streams[i];
    var up := h.streams[i := s.(state := StreamOpen)];
    FailNegotiationAside(h.(calls := h.calls + [Call(s.id, OnOpen, false)], streams := up), i, a);
    forall z: Host, o: nat ensures Bookkept(z, OpenRelease(z, o)) { OpenReleaseLedger(z, o); }
  }

  ghost predicate Bookkept(h: Host, z: Host) {
    z.issued == h.issued && z.resolved == h.resolved && z.phase == h.phase && z.driving == h.driving
  }

  lemma OpenReleaseLedger(h: Host, o: nat)
    ensures Bookkept(h, OpenRelease(h, o))
  {
  }

  lemma DeliverLedger(h: Host, i: nat, x: CallbackAnswer, a: Released)
    requires i < |h.streams|
    ensures Bookkept(h, Deliver(h, i, x, a))
  {
    hide CallEvent, StreamRelease;
    forall s: Stream, k: Callback ensures Bookkept(h, CallEvent(h, i, s, k, x, a)) {
      CallLedger(h, i, s, k, x, a);
    }
    ReleaseAside(CallEvent(h, i, h.streams[i].(closed := false), OnClosed, x, a), i, a);
  }

  lemma CallLedger(h: Host, i: nat, s: Stream, k: Callback, x: CallbackAnswer, a: Released)
    requires i < |h.streams|
    ensures Bookkept(h, CallEvent(h, i, s, k, x, a))
  {
    hide StreamRelease;
    ReleaseAside(h.(streams := h.streams[i := s], calls := h.calls + [Call(s.id, k, x == Accepted)]), i, a);
  }

  lemma OpenLedger(h: Host, c: nat, known: bool, userData: nat, a: OpenAnswer)
    requires Inv(h)
    ensures
      var r := OpenStream(h, c, known, userData, a);
      r.0.issued == h.issued + (if r.1 == Ok then 1 else 0) && r.0.resolved == h.resolved
  {
    OpenStreamIs(h, c, known, userData, a);
    hide OpenStream, Inv;
  }

  lemma CancelLedger(h: Host, o: nat, userData: nat, a: Released)
    ensures
      var r := Cancel(h, o, userData, a);
      && r.0.issued == h.issued && r.0.phase == h.phase && r.0.driving == h.driving
      && r.0.resolved == h.resolved + if r.1 == Ok && o < |h.opens| then [h.opens[o].id] else []
  {
    hide StreamRelease, OpenRelease, TryRecycle;
    if o < |h.opens| {
      var c, i := h.opens[o].conn, OwnerOf(h, o);
      var h0 := h.(resolved := h.resolved + [h.opens[o].id]);
      GivenBackAside(h0, o, c, a);
      if i < |h.streams| {
        var h1 := h0.(streams := h.streams[i := h.streams[i].(open := None)]);
        ReleaseAside(h1, i, a);
        GivenBackAside(StreamRelease(h1, i, a), o, c, a);
      }
    }
  }

  lemma NextLedger(h: Host, a: Released)
    requires Inv(h) && h.events != []
    ensures
      var o := h.events[0].open;
      && NextEvent(h, a).issued == h.issued
      && NextEvent(h, a).resolved == h.resolved + if o.Some? && o.value < |h.opens| then [h.opens[o.value].id] else []
  {
    hide Inv, NextEvent;
    NextEventIs(h, a);
  }

  /**
    Every accepted open attempt is reported at most once, by STREAM_OPENED, STREAM_OPEN_FAILED or a successful
    cancel; until then exactly one slot holds it, and afterwards none.
  */
  lemma ResolvedOnce(m: Limits, labels: seq<Label>, x: nat)
    requires ValidLimits(m) && Run(m, labels).Some?
    ensures
      var h := Run(m, labels).value;
      && (x in h.resolved ==> x < h.issued)
      && (x < h.issued ==> (x in h.resolved <==> !Live(h.opens, x)))
      && (forall j, k :: 0 <= j < k < |h.resolved| ==> h.resolved[j] != h.resolved[k])
      && (forall o, q :: 0 <= o < q < |h.opens| && h.opens[o].state != OpenFree && h.opens[q].state != OpenFree ==>
            h.opens[o].id != h.opens[q].id)
  {
    hide Run, Structure, Queued, Talks, LastWord;
    RunKeeps(m, labels);
  }

  /** EVENTED opens and the queued events that carry them match one to one, and so do NEGOTIATING opens and streams. */
  lemma OpensMatched(m: Limits, labels: seq<Label>, o: nat)
    requires ValidLimits(m) && Run(m, labels).Some? && o < |Run(m, labels).value.opens|
    ensures
      var h := Run(m, labels).value;
      && (h.opens[o].state == OpenEvented <==> Carried(h.events, o))
      && (forall j, k :: 0 <= j < k < |h.events| && h.events[j].open == Some(o) ==> h.events[k].open != Some(o))
      && (h.opens[o].state == OpenNegotiating <==>
            exists i :: 0 <= i < |h.streams| && h.streams[i].state == StreamNegotiating && Owns(h.streams[i], o))
      && (forall i, j :: 0 <= i < j < |h.streams| && Owns(h.streams[i], o) ==> !Owns(h.streams[j], o))
  {
    RunKeeps(m, labels);
    var h := Run(m, labels).value;
    assert Carried(h.events, o) ==> h.opens[o].state == OpenEvented by { QueueFacts(h.conns, h.opens, h.events, o, 0); }
    if h.opens[o].state == OpenNegotiating { OwnerFound(h, o); }
    forall i | 0 <= i < |h.streams| && h.streams[i].state == StreamNegotiating && Owns(h.streams[i], o)
      ensures h.opens[o].state == OpenNegotiating
    {
      assert StreamOk(h.conns, h.opens, h.streams[i]);
    }
    hide Run, Links, Tallies, Announced, DialsOk, History, LastWord;
  }

  /** EVENTED dials and the queued events that carry them match one to one. */
  lemma DialsMatched(m: Limits, labels: seq<Label>, d: nat)
    requires ValidLimits(m) && Run(m, labels).Some? && d < |Run(m, labels).value.dials|
    ensures
      var h := Run(m, labels).value;
      && (h.dials[d].state == DialEvented <==> DialCarried(h.events, d))
      && (forall j, k :: 0 <= j < k < |h.events| && h.events[j].dial == Some(d) ==> h.events[k].dial != Some(d))
  {
    hide Run, Structure, Queue, Covered, Announced, History, LastWord;
    RunKeeps(m, labels);
  }

  /** cancel never fails to find the stream: its state error means the open has already been reported. */
  lemma CancelFinds(m: Limits, labels: seq<Label>, o: nat, userData: nat, a: Released)
    requires ValidLimits(m) && Run(m, labels).Some?
    ensures
      var h := Run(m, labels).value;
      Cancel(h, o, userData, a).1 == ErrState ==> o < |h.opens| && h.opens[o].state == OpenEvented
  {
    hide Run, Inv, StreamRelease, OpenRelease, TryRecycle;
    RunKeeps(m, labels);
    var h := Run(m, labels).value;
    if h.phase != Closed && o < |h.opens| && h.opens[o].state == OpenNegotiating {
      OwnerFound(h, o);
    }
  }

  // ------------------------------------------------------------------- starvation

  function Total(ss: seq<Stream>, n: nat): nat {
    if n == 0 then 0 else Total(ss, n - 1) + StreamsOn(ss, n - 1)
  }

  lemma {:induction false} TotalNone(n: nat)
    ensures Total([], n) == 0
  {
    if n > 0 { TotalNone(n - 1); }
  }

  /** One more stream adds one to the total exactly when it is in use and its connection is among the first n. */
  lemma {:induction false} TotalMore(ss: seq<Stream>, n: nat)
    requires ss != []
    ensures
      var k := |ss| - 1;
      Total(ss, n) == Total(ss[..k], n) + Bit(ss[k].state != StreamFree && ss[k].conn < n)
  {
    if n > 0 { TotalMore(ss, n - 1); }
  }

  lemma {:induction false} TotalFull(ss: seq<Stream>, n: nat)
    requires forall i :: 0 <= i < |ss| ==> ss[i].state != StreamFree && ss[i].conn < n
    ensures Total(ss, n) == |ss|
  {
    if ss == [] {
      TotalNone(n);
    } else {
      TotalMore(ss, n);
      TotalFull(ss[..|ss| - 1], n);
    }
  }

  lemma {:induction false} TotalBound(ss: seq<Stream>, n: nat, max: nat)
    requires forall c :: 0 <= c < n ==> StreamsOn(ss, c) <= max
    ensures Total(ss, n) <= n * max
  {
    if n > 0 {
      TotalBound(ss, n - 1, max);
      assert n * max == (n - 1) * max + max;
    }
  }

  lemma {:induction false} TotalBelow(ss: seq<Stream>, n: nat, max: nat, c: nat)
    requires forall d :: 0 <= d < n ==> StreamsOn(ss, d) <= max
    requires c < n && StreamsOn(ss, c) < max
    ensures Total(ss, n) < n * max
  {
    assert n * max == (n - 1) * max + max;
    if c == n - 1 { TotalBound(ss, n - 1, max); } else { TotalBelow(ss, n - 1, max, c); }
  }

  /** Both counts are exact, and a stream slot is refused exactly when that very connection is at its own limit. */
  lemma NoStarvation(m: Limits, labels: seq<Label>, c: nat)
    requires ValidLimits(m) && Run(m, labels).Some? && c < |Run(m, labels).value.conns|
    ensures
      var h := Run(m, labels).value;
      && h.conns[c].streamCount == StreamsOn(h.streams, c) && h.conns[c].openCount == OpensOn(h.opens, c)
      && StreamsOn(h.streams, c) <= h.maxStreams
      && (StreamSlot(h, c) == None <==> StreamsOn(h.streams, c) == h.maxStreams)
  {
    hide Run;
    RunKeeps(m, labels);
    SlotRefused(Run(m, labels).value, c);
  }

  lemma SlotRefused(h: Host, c: nat)
    requires Inv(h) && c < |h.conns|
    ensures h.conns[c].streamCount == StreamsOn(h.streams, c) <= h.maxStreams
    ensures h.conns[c].openCount == OpensOn(h.opens, c)
    ensures StreamSlot(h, c) == None <==> StreamsOn(h.streams, c) == h.maxStreams
  {
    hide Links, Queued, History, LastWord;
    StreamConn(h);
    if StreamsOn(h.streams, c) < h.maxStreams && FreeStream(h) == |h.streams| {
      TotalFull(h.streams, |h.conns|);
      TotalBelow(h.streams, |h.conns|, h.maxStreams, c);
    }
  }

  // --------------------------------------------------------------- callback traces

  /** The callbacks one stream incarnation received, in order. */
  function Heard(calls: seq<Call>, id: nat): seq<Call> {
    if calls == [] then []
    else
      var k := |calls| - 1;
      Heard(calls[..k], id) + if calls[k].stream == id then [calls[k]] else []
  }

  /** on_open first and only first; nothing after a closed or after a refusal. */
  ghost predicate WellSpoken(cs: seq<Call>) {
    && (forall k :: 0 <= k < |cs| ==> (cs[k].callback == OnOpen <==> k == 0))
    && (forall k :: 0 <= k < |cs| - 1 ==> cs[k].ok && cs[k].callback != OnClosed)
  }

  lemma {:induction false} TalkSays(calls: seq<Call>, id: nat)
    requires TalkOf(calls, id) != Wrong
    ensures WellSpoken(Heard(calls, id))
    ensures TalkOf(calls, id) == Silent <==> Heard(calls, id) == []
    ensures TalkOf(calls, id) == Talking ==>
      Heard(calls, id)[|Heard(calls, id)| - 1].ok && Heard(calls, id)[|Heard(calls, id)| - 1].callback != OnClosed
    decreases |calls|
  {
    if calls != [] {
      TalkSays(calls[..|calls| - 1], id);
    }
  }

  /**
    In every run, every stream incarnation hears on_open once, then data or reset, then at most one closed, then
    nothing.
  */
  lemma CallbackTrace(m: Limits, labels: seq<Label>, id: nat)
    requires ValidLimits(m) && Run(m, labels).Some?
    ensures WellSpoken(Heard(Run(m, labels).value.calls, id))
  {
    hide Run, Structure, Queued, Attempts, LastWord;
    RunKeeps(m, labels);
    TalkSays(Run(m, labels).value.calls, id);
  }

  /** Two slots never speak for the same incarnation, and a reused slot speaks for a new one. */
  lemma IncarnationsApart(m: Limits, labels: seq<Label>, i: nat, j: nat)
    requires ValidLimits(m) && Run(m, labels).Some?
    ensures
      var h := Run(m, labels).value;
      i < j < |h.streams| && h.streams[i].state != StreamFree && h.streams[j].state != StreamFree ==>
        h.streams[i].id != h.streams[j].id && h.streams[i].id < h.born && h.streams[j].id < h.born
  {
    hide Run, Structure, Queued, Attempts, LastWord;
    RunKeeps(m, labels);
  }
}
