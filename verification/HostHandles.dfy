/** Stream handles: an open stream keeps its slot, but a queued STREAM_OPENED does not keep the stream. */
module HostHandles {
  import opened Bytes
  import opened Host
  import opened HostInv
  import opened HostStreams
  import opened HostRuns
  import opened HostTables
  import opened HostProofs

  /** An open stream stays in its slot exactly until its protocol is told CLOSED or refuses what it is told. */
  lemma OpenStreamStays(h: Host, l: Label, i: nat)
    requires Inv(h) && Enabled(h, l) && i < |h.streams| && h.streams[i].state == StreamOpen
    ensures |Apply(h, l).streams| == |h.streams|
    ensures Ends(h, l, i) ==> Apply(h, l).streams[i] == NO_STREAM
    ensures !Ends(h, l, i) ==>
      var s, t := h.streams[i], Apply(h, l).streams[i];
      t.state == StreamOpen && t.id == s.id && t.conn == s.conn && t.handle == s.handle && t.outbound == s.outbound
  {
    hide Inv, Apply, Enabled, Raises, Detaches, Marked, Taken;
    SlotTurns(h, l, i);
    FlagsOnly(h.streams[i]);
    if Ends(h, l, i) { TellTakes(h, l, i); }
  }

  /** Where an open stream and its link to an open attempt come from. */
  lemma SlotComesFrom(h: Host, l: Label, i: nat)
    requires Inv(h) && Enabled(h, l) && i < |h.streams|
    ensures |Apply(h, l).streams| == |h.streams|
    ensures
      var s, t := h.streams[i], Apply(h, l).streams[i];
      && (t.state == StreamOpen ==> s.state != StreamFree && t.id == s.id)
      && (t.open == s.open || t.open == None
            || (t.open.value < |h.opens| && h.opens[t.open.value].state != OpenEvented))
      && (s.state == StreamOpen && !Ends(h, l, i) ==> t.open == s.open || Detaches(h, l, i))
  {
    hide Inv, Apply, Enabled, Raises, Marked, Taken, Detaches, Ends, Tells;
    SlotTurns(h, l, i);
    FlagsOnly(h.streams[i]);
  }

  /** A notification that comes or goes leaves the rest of the stream alone. */
  lemma FlagsOnly(s: Stream)
    ensures SameButFlags(s, Taken(s)) && forall k :: SameButFlags(s, Marked(s, k))
  {
  }

  // -------------------------------------------------------- the handle in STREAM_OPENED

  /** The slot that the event names holds the stream that the event announces. */
  predicate Names(h: Host, e: Event) {
    && e.stream.Some? && e.stream.value < |h.streams|
    && h.streams[e.stream.value].state == StreamOpen && e.incarnation == Some(h.streams[e.stream.value].id)
  }

  /** The announced stream came up before. */
  ghost predicate Dated(h: Host, e: Event) {
    && e.stream.Some? && e.stream.value < |h.streams|
    && e.incarnation.Some? && e.incarnation.value < h.born && TalkOf(h.calls, e.incarnation.value) != Silent
  }

  lemma TalkedOnce(calls: seq<Call>, more: seq<Call>, id: nat)
    requires |more| <= 1 && TalkOf(calls, id) != Silent
    ensures TalkOf(calls + more, id) != Silent
  {
    if more == [] { assert calls + more == calls; } else { assert (calls + more)[..|calls|] == calls; }
  }

  lemma DatedStep(h: Host, l: Label, e: Event)
    requires Inv(h) && Enabled(h, l) && Dated(h, e)
    ensures Dated(Apply(h, l), e)
  {
    hide Inv, Apply, Enabled, Turns, OnlyNews, TalkOf, Tells;
    SlotTurns(h, l, e.stream.value);
    StepRecords(h, l);
    TalkedOnce(h.calls, Spoken(h, l), e.incarnation.value);
  }

  /** A stream that is still negotiating has heard nothing yet. */
  lemma StillSilent(h: Host, i: nat)
    requires Inv(h) && i < |h.streams| && h.streams[i].state == StreamNegotiating
    ensures TalkOf(h.calls, h.streams[i].id) == Silent && h.streams[i].id < h.born
  {
    hide Structure, Queued, Attempts, LastWord, TalkOf;
  }

  /** A step spoils the handle exactly when it is the last thing the announced stream is told. */
  lemma NamesStep(h: Host, l: Label, e: Event)
    requires Inv(h) && Enabled(h, l) && Dated(h, e)
    ensures Names(Apply(h, l), e) <==> Names(h, e) && !Ends(h, l, e.stream.value)
  {
    hide Inv, Apply, Enabled, TalkOf, Ends, Detaches;
    var i := e.stream.value;
    SlotComesFrom(h, l, i);
    if h.streams[i].state == StreamOpen { OpenStreamStays(h, l, i); }
    if h.streams[i].state == StreamNegotiating { StillSilent(h, i); }
  }

  /** When STREAM_OPENED is queued, the slot it names holds the stream it announces. */
  lemma NewsNames(h: Host, l: Label, e: Event)
    requires Inv(h) && Enabled(h, l) && e.kind == StreamOpened && e in Apply(h, l).events && e !in h.events
    ensures Names(Apply(h, l), e) && Dated(Apply(h, l), e)
    ensures e.open.Some? && e.stream.Some? && e.stream.value < |Apply(h, l).streams|
    ensures Apply(h, l).streams[e.stream.value].open == e.open
  {
    hide Inv, Apply, Enabled, TalkOf;
    StepRecords(h, l);
    var i := l.stream;
    SlotTurns(h, l, i);
    StillSilent(h, i);
    CameUp(h, l);
    FirstWord(h.calls, h.streams[i].id);
  }

  lemma CameUp(h: Host, l: Label)
    requires Inv(h) && l.LNegotiate? && Enabled(h, l) && ComesUp(h, l, l.stream)
    ensures |Apply(h, l).streams| == |h.streams|
    ensures Apply(h, l).streams[l.stream] == HostCompletion.Opened1(h.streams[l.stream])
  {
    hide Inv, CompleteNegotiation;
    HostCompletion.PromotedIs(h, l.stream, l.outcome.onOpen, l.released);
  }

  lemma FirstWord(calls: seq<Call>, id: nat)
    requires TalkOf(calls, id) == Silent
    ensures TalkOf(calls + [Call(id, OnOpen, true)], id) == Talking
  {
    assert (calls + [Call(id, OnOpen, true)])[..|calls|] == calls;
  }

  // ---------------------------------------------------------------- the guard in the code

  /** The guard in libp2p_host_next_event tells whether the slot still holds the announced stream. */
  ghost predicate Guarded(h: Host, e: Event) {
    && Dated(h, e) && e.open.Some?
    && (Names(h, e) <==> h.streams[e.stream.value].open == e.open)
  }

  ghost predicate AllGuarded(h: Host) {
    forall e :: e in h.events && e.kind == StreamOpened ==> Guarded(h, e)
  }

  /** No other queued event carries the open attempt of the one in front. */
  lemma CarriedOnce(h: Host, e: Event)
    requires Inv(h) && h.events != [] && e in h.events[1..] && e.open.Some?
    ensures e.open != h.events[0].open
  {
    hide Structure, History, LastWord, Covered, Announced, DialsOk, EventOk;
  }

  lemma StillEvented(h: Host, e: Event)
    requires Inv(h) && e in h.events && e.open.Some?
    ensures e.open.value < |h.opens| && h.opens[e.open.value].state == OpenEvented
  {
    hide Structure, History, LastWord, Covered, Announced, DialsOk;
    var k :| 0 <= k < |h.events| && h.events[k] == e;
    assert EventOk(h.conns, h.opens, h.events[k]);
  }

  lemma GuardedStep(h: Host, l: Label, e: Event)
    requires Inv(h) && Enabled(h, l) && e in h.events && Guarded(h, e)
    requires l.LNextEvent? ==> e in h.events[1..]
    ensures Guarded(Apply(h, l), e)
  {
    hide Inv, Apply, Enabled, Dated, Ends;
    StreamGiven(h, e);
    var i := e.stream.value;
    DatedStep(h, l, e);
    StreamGiven(Apply(h, l), e);
    NamesStep(h, l, e);
    SlotComesFrom(h, l, i);
    if h.streams[i].state == StreamOpen { OpenStreamStays(h, l, i); }
    StillEvented(h, e);
    if Detaches(h, l, i) { CarriedOnce(h, e); }
  }

  lemma AllGuardedStep(h: Host, l: Label)
    requires Inv(h) && Enabled(h, l) && AllGuarded(h)
    ensures AllGuarded(Apply(h, l))
  {
    hide Inv, Apply, Guarded, Dated, Names;
    forall e | e in Apply(h, l).events && e.kind == StreamOpened ensures Guarded(Apply(h, l), e) {
      if e in h.events {
        if l.LNextEvent? { NextPops(h, l); }
        GuardedStep(h, l, e);
      } else {
        NewsNames(h, l, e);
        NewsGuarded(Apply(h, l), e);
      }
    }
  }

  lemma NextPops(h: Host, l: Label)
    requires Inv(h) && l.LNextEvent? && Enabled(h, l)
    ensures Apply(h, l).events == h.events[1..]
  {
    hide Inv, NextEvent, Records;
    NextRecords(h, l.released);
  }

  lemma NewsGuarded(h: Host, e: Event)
    requires Names(h, e) && Dated(h, e) && e.open.Some? && h.streams[e.stream.value].open == e.open
    ensures Guarded(h, e)
  {
  }

  lemma {:induction false} RunGuards(m: Limits, labels: seq<Label>, k: nat)
    requires ValidLimits(m) && Run(m, labels).Some? && k <= |labels|
    ensures AllGuarded(Past(m, labels, k))
  {
    hide Inv, Apply, Enabled, Run, AllGuarded, Past;
    if k == 0 {
      PastEnds(m, labels);
      FreshGuards(m);
    } else {
      RunGuards(m, labels, k - 1);
      PastStep(m, labels, k - 1);
      AllGuardedStep(Past(m, labels, k - 1), labels[k - 1]);
    }
  }

  lemma FreshGuards(m: Limits)
    ensures AllGuarded(Fresh(m))
  {
  }

  // ------------------------------------------------------------------------ over runs

  /** Label p queued the event. */
  ghost predicate QueuedAt(m: Limits, labels: seq<Label>, p: nat, e: Event)
    requires Run(m, labels).Some?
  {
    p < |labels| && e !in Past(m, labels, p).events && e in Past(m, labels, p + 1).events
  }

  /** Label j told the protocol of slot i the last thing it was told. */
  ghost predicate EndsAt(m: Limits, labels: seq<Label>, j: nat, i: nat)
    requires Run(m, labels).Some? && j < |labels|
  {
    Ends(Past(m, labels, j), labels[j], i)
  }

  /** Every queued event was queued by some label. */
  lemma {:induction false} QueuedSometime(m: Limits, labels: seq<Label>, k: nat, e: Event) returns (p: nat)
    requires ValidLimits(m) && Run(m, labels).Some? && k <= |labels| && e in Past(m, labels, k).events
    ensures p < k && QueuedAt(m, labels, p, e)
  {
    hide Run, Past;
    if k == 0 {
      PastEnds(m, labels);
      assert false;
    }
    p := k - 1;
    if e in Past(m, labels, k - 1).events { p := QueuedSometime(m, labels, k - 1, e); }
  }

  /** From the moment the event is queued, consumed or not, its handle is good until the stream is told its last. */
  lemma {:induction false} HandleLives(m: Limits, labels: seq<Label>, p: nat, e: Event, k: nat)
    requires ValidLimits(m) && Run(m, labels).Some?
    requires e.kind == StreamOpened && QueuedAt(m, labels, p, e) && p < k <= |labels|
    ensures Dated(Past(m, labels, k), e)
    ensures Names(Past(m, labels, k), e) <==> forall j: nat :: p < j < k ==> !EndsAt(m, labels, j, e.stream.value)
  {
    hide Inv, Apply, Enabled, Run, Past, Dated, Names, Ends;
    PastStep(m, labels, k - 1);
    if k == p + 1 {
      NewsNames(Past(m, labels, p), labels[p], e);
    } else {
      HandleLives(m, labels, p, e, k - 1);
      StreamGiven(Past(m, labels, k - 1), e);
      DatedStep(Past(m, labels, k - 1), labels[k - 1], e);
      NamesStep(Past(m, labels, k - 1), labels[k - 1], e);
      assert EndsAt(m, labels, k - 1, e.stream.value) == Ends(Past(m, labels, k - 1), labels[k - 1], e.stream.value);
    }
    StreamGiven(Past(m, labels, k), e);
  }

  lemma StreamGiven(h: Host, e: Event)
    requires Dated(h, e)
    ensures e.stream.Some? && e.stream.value < |h.streams|
  {
  }

  /**
    When STREAM_OPENED is consumed, the slot it names holds the stream it announced if and only if that slot still
    points at the open attempt (the guard in libp2p_host_next_event), and if and only if since the event was queued
    the slot's protocol was not told CLOSED and did not refuse what it was told.
  */
  lemma OpenedHandle(m: Limits, labels: seq<Label>)
    requires ValidLimits(m) && Run(m, labels).Some? && Run(m, labels).value.events != []
    requires Run(m, labels).value.events[0].kind == StreamOpened
    ensures
      var h := Run(m, labels).value;
      var e := h.events[0];
      && e.stream.Some? && e.stream.value < |h.streams|
      && (Names(h, e) <==> h.streams[e.stream.value].open == e.open)
      && (exists p: nat :: QueuedAt(m, labels, p, e))
      && (forall p: nat :: QueuedAt(m, labels, p, e) ==>
            (Names(h, e) <==> forall j: nat :: p < j < |labels| ==> !EndsAt(m, labels, j, e.stream.value)))
  {
    hide Run, Past, Names, EndsAt, QueuedAt;
    PastEnds(m, labels);
    var h := Run(m, labels).value;
    var e := h.events[0];
    RunGuards(m, labels, |labels|);
    assert Guarded(h, e);
    var q := QueuedSometime(m, labels, |labels|, e);
    forall p: nat | QueuedAt(m, labels, p, e)
      ensures Names(h, e) <==> forall j: nat :: p < j < |labels| ==> !EndsAt(m, labels, j, e.stream.value)
    {
      WasQueued(m, labels, p, e);
      HandleLives(m, labels, p, e, |labels|);
    }
  }

  lemma WasQueued(m: Limits, labels: seq<Label>, p: nat, e: Event)
    requires Run(m, labels).Some? && QueuedAt(m, labels, p, e)
    ensures p < |labels|
  {
  }

  lemma Extend(m: Limits, labels: seq<Label>, h: Host, l: Label)
    requires Run(m, labels) == Some(h) && Enabled(h, l)
    ensures Run(m, labels + [l]) == Some(Apply(h, l))
  {
    hide Apply, Enabled;
    assert (labels + [l])[..|labels|] == labels;
  }

  const TIGHT := Limits(1, 1, 1, 1, 4)
  const UP := NO_CONN.(active := true, handle := 7)
  const DIALLED := Stream(StreamNegotiating, 0, 5, true, Some(0), false, false, false, false, 0)
  const OPENED := Event(StreamOpened, Some(0), Some(0), None, Some(0), Some(0), 9)
  const NEWS := Event(ConnEstablished, Some(0), None, None, None)

  function Stale0(): Host { Host(Started, false, 1, 4, [NO_CONN], [NO_STREAM], [NO_OPEN], [NO_DIAL], [], 0, 0, [], 0,
                  []) }
  function Stale1(): Host { Stale0().(driving := true) }
  function Stale2(): Host { Stale1().(conns := [UP], events := [NEWS]) }
  function Stale3(): Host { Stale2().(driving := false) }
  function Stale4(): Host {
    Stale3().(conns := [UP.(streamCount := 1, openCount := 1)], streams := [DIALLED],
              opens := [Open(OpenNegotiating, 0, 9, 0)], issued := 1, born := 1)
  }
  function Stale5(): Host { Stale4().(driving := true) }
  function Stale6(): Host {
    Stale5().(streams := [DIALLED.(state := StreamOpen, readable := true, writable := true)],
              opens := [Open(OpenEvented, 0, 9, 0)], events := [NEWS, OPENED], calls := [Call(0, OnOpen, true)])
  }
  function Stale7(): Host {
    Stale6().(conns := [UP.(openCount := 1)], streams := [NO_STREAM],
              calls := [Call(0, OnOpen, true), Call(0, OnReadable, false)])
  }

  /** A connection comes up, a stream is opened on it and agrees; STREAM_OPENED is queued. */
  function UpLabels(): seq<Label> {
    [LDrive, LTransport(Established(7, 0, 0), ReleaseLater), LReturn, LOpen(0, true, 9, Opened(5)), LDrive,
     LNegotiate(0, Agreed(Accepted), ReleaseLater)]
  }

  /** The protocol refuses its first notification, and an incoming stream takes the slot. */
  function RefusedLabels(): seq<Label> {
    UpLabels() + [LDeliver(0, Refused, ReleaseLater)] + [LTransport(Incoming(7, 6), ReleaseLater)]
  }

  /** The peer finishes the stream, and the protocol accepts its CLOSED. */
  function FinishedLabels(): seq<Label> {
    UpLabels() + [LTransport(Finished(5), ReleaseLater)] + [LDeliver(0, Accepted, ReleaseLater)]
  }

  lemma StaleStarts()
    ensures Run(TIGHT, []) == Some(Stale0())
  {
    var f := Fresh(TIGHT);
    assert f.conns == [NO_CONN] && f.streams == [NO_STREAM] && f.opens == [NO_OPEN] && f.dials == [NO_DIAL];
  }

  lemma StaleComesUp()
    ensures Enabled(Stale1(), UpLabels()[1]) && Apply(Stale1(), UpLabels()[1]) == Stale2()
  {
    assert FreeConn(Stale1()) == 0 && FindDial(Stale1(), 0) == 1;
  }

  lemma StaleOpens()
    ensures Enabled(Stale3(), UpLabels()[3]) && Apply(Stale3(), UpLabels()[3]) == Stale4()
  {
    var h := Stale3();
    assert FreeOpen(h) == 0 && FreeStream(h) == 0;
    var h1 := h.(opens := [Open(OpenWaiting, 0, 9, 0)], conns := [UP.(openCount := 1)]);
    assert StreamSlot(h1, 0) == Some(0) && FreeStream(h1) == 0;
    assert StartStream(h1, 0, 0, 5).(issued := 1) == Stale4();
  }

  lemma StaleAgrees()
    ensures Enabled(Stale5(), UpLabels()[5]) && Apply(Stale5(), UpLabels()[5]) == Stale6()
  {
  }

  lemma StaleRefuses()
    ensures Enabled(Stale6(), LDeliver(0, Refused, ReleaseLater))
    ensures Apply(Stale6(), LDeliver(0, Refused, ReleaseLater)) == Stale7()
  {
  }

  lemma StaleReused()
    ensures Enabled(Stale7(), LTransport(Incoming(7, 6), ReleaseLater))
    ensures
      var h := Apply(Stale7(), LTransport(Incoming(7, 6), ReleaseLater));
      h.events == [NEWS, OPENED] && |h.streams| == 1 && h.streams[0].state == StreamNegotiating
        && !h.streams[0].outbound
  {
    assert FindConn(Stale7(), 7) == 0 && FreeStream(Stale7()) == 0;
  }

  function Finished7(): Host { Stale6().(streams := [Stale6().streams[0].(closed := true)]) }

  lemma StaleFinishes()
    ensures Enabled(Stale6(), LTransport(Finished(5), ReleaseLater))
    ensures Apply(Stale6(), LTransport(Finished(5), ReleaseLater)) == Finished7()
    ensures Enabled(Finished7(), LDeliver(0, Accepted, ReleaseLater))
    ensures
      var h := Apply(Finished7(), LDeliver(0, Accepted, ReleaseLater));
      h.events == [NEWS, OPENED] && h.streams == [NO_STREAM]
        && h.calls == [Call(0, OnOpen, true), Call(0, OnClosed, true)]
  {
    assert FindStream(Stale6(), 5) == 0;
  }

  lemma StaleRest()
    ensures Enabled(Stale0(), LDrive) && Apply(Stale0(), LDrive) == Stale1()
    ensures Enabled(Stale2(), LReturn) && Apply(Stale2(), LReturn) == Stale3()
    ensures Enabled(Stale4(), LDrive) && Apply(Stale4(), LDrive) == Stale5()
  {
  }

  lemma ExtendTo(m: Limits, labels: seq<Label>, k: nat, h: Host)
    requires k < |labels| && Run(m, labels[..k]) == Some(h) && Enabled(h, labels[k])
    ensures Run(m, labels[..k + 1]) == Some(Apply(h, labels[k]))
  {
    hide Run, Apply, Enabled;
    assert labels[..k + 1] == labels[..k] + [labels[k]];
    Extend(m, labels[..k], h, labels[k]);
  }

  lemma StreamUp()
    ensures Run(TIGHT, UpLabels()) == Some(Stale6())
  {
    hide Run, Apply, Enabled, Stale0, Stale1, Stale2, Stale3, Stale4, Stale5, Stale6;
    StaleStarts();
    StaleRest();
    StaleComesUp();
    StaleOpens();
    StaleAgrees();
    var ls := UpLabels();
    assert ls[..0] == [] && ls[..6] == ls;
    ExtendTo(TIGHT, ls, 0, Stale0());
    ExtendTo(TIGHT, ls, 1, Stale1());
    ExtendTo(TIGHT, ls, 2, Stale2());
    ExtendTo(TIGHT, ls, 3, Stale3());
    ExtendTo(TIGHT, ls, 4, Stale4());
    ExtendTo(TIGHT, ls, 5, Stale5());
  }

  /**
    Two runs in which the queued STREAM_OPENED no longer names the stream it announced: the protocol refused a
    notification and the slot holds another stream; the stream was closed, accepted as such, and the slot is free.
  */
  lemma StaleHandle()
    ensures ValidLimits(TIGHT) && Run(TIGHT, RefusedLabels()).Some? && Run(TIGHT, FinishedLabels()).Some?
    ensures
      var h := Run(TIGHT, RefusedLabels()).value;
      && h.events == [NEWS, OPENED] && !Names(h, OPENED)
      && |h.streams| == 1 && h.streams[0].state == StreamNegotiating && !h.streams[0].outbound
    ensures
      var h := Run(TIGHT, FinishedLabels()).value;
      && h.events == [NEWS, OPENED] && !Names(h, OPENED) && h.streams == [NO_STREAM]
      && (forall k :: 0 <= k < |h.calls| ==> h.calls[k].ok)
  {
    hide Run, Apply, Enabled, Stale6, Stale7, Finished7, UpLabels;
    StreamUp();
    StaleRefuses();
    StaleReused();
    StaleFinishes();
    var refused, finished := LDeliver(0, Refused, ReleaseLater), LTransport(Finished(5), ReleaseLater);
    Extend(TIGHT, UpLabels(), Stale6(), refused);
    Extend(TIGHT, UpLabels() + [refused], Stale7(), LTransport(Incoming(7, 6), ReleaseLater));
    Extend(TIGHT, UpLabels(), Stale6(), finished);
    Extend(TIGHT, UpLabels() + [finished], Finished7(), LDeliver(0, Accepted, ReleaseLater));
  }
}
