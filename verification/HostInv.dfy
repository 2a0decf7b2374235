/** What every reachable state of the host satisfies, table by table. */
module HostInv {
  import opened Bytes
  import opened Host

  // ------------------------------------------------------------------ counting

  function StreamsOn(ss: seq<Stream>, c: nat): nat {
    if ss == [] then 0
    else StreamsOn(ss[..|ss| - 1], c) + Bit(ss[|ss| - 1].state != StreamFree && ss[|ss| - 1].conn == c)
  }

  function OpensOn(os: seq<Open>, c: nat): nat {
    if os == [] then 0
    else OpensOn(os[..|os| - 1], c) + Bit(os[|os| - 1].state != OpenFree && os[|os| - 1].conn == c)
  }

  /** Opens that may still produce an event. */
  function Unevented(os: seq<Open>): (n: nat)
    ensures n <= |os|
  {
    if os == [] then 0 else Unevented(os[..|os| - 1]) + Bit(os[|os| - 1].state != OpenEvented)
  }

  function Bit(b: bool): nat { if b then 1 else 0 }

  lemma {:induction false} StreamsOnUpdate(ss: seq<Stream>, i: nat, s: Stream, c: nat)
    requires i < |ss|
    ensures StreamsOn(ss[i := s], c) == StreamsOn(ss, c)
      - Bit(ss[i].state != StreamFree && ss[i].conn == c) + Bit(s.state != StreamFree && s.conn == c)
  {
    var k := |ss| - 1;
    if i == k {
      assert ss[i := s][..k] == ss[..k];
    } else {
      assert ss[i := s][..k] == ss[..k][i := s];
      StreamsOnUpdate(ss[..k], i, s, c);
    }
  }

  lemma {:induction false} OpensOnUpdate(os: seq<Open>, i: nat, v: Open, c: nat)
    requires i < |os|
    ensures OpensOn(os[i := v], c) == OpensOn(os, c)
      - Bit(os[i].state != OpenFree && os[i].conn == c) + Bit(v.state != OpenFree && v.conn == c)
  {
    var k := |os| - 1;
    if i == k {
      assert os[i := v][..k] == os[..k];
    } else {
      assert os[i := v][..k] == os[..k][i := v];
      OpensOnUpdate(os[..k], i, v, c);
    }
  }

  lemma {:induction false} UneventedUpdate(os: seq<Open>, i: nat, v: Open)
    requires i < |os|
    ensures Unevented(os[i := v]) == Unevented(os) - Bit(os[i].state != OpenEvented) + Bit(v.state != OpenEvented)
  {
    var k := |os| - 1;
    if i == k {
      assert os[i := v][..k] == os[..k];
    } else {
      assert os[i := v][..k] == os[..k][i := v];
      UneventedUpdate(os[..k], i, v);
    }
  }

  // ----------------------------------------------------------------- predicates

  ghost predicate Sizes(h: Host) {
    |h.streams| == |h.conns| * h.maxStreams && |h.opens| < h.eventCapacity && |h.events| <= h.eventCapacity
      && h.lost == 0
  }

  /** Slots that are not in use hold nothing. */
  ghost predicate Zeroed(conns: seq<Conn>, streams: seq<Stream>, opens: seq<Open>) {
    && (forall c :: 0 <= c < |conns| && !conns[c].active ==> conns[c] == NO_CONN)
    && (forall i :: 0 <= i < |streams| && streams[i].state == StreamFree ==> streams[i] == NO_STREAM)
    && (forall o :: 0 <= o < |opens| && opens[o].state == OpenFree ==> opens[o] == NO_OPEN)
  }

  /** An in-use stream sits on an active connection; while negotiating, on an open one, paired with its open attempt. */
  ghost predicate StreamOk(conns: seq<Conn>, opens: seq<Open>, s: Stream) {
    && s.conn < |conns| && conns[s.conn].active
    && (s.open.Some? ==> s.outbound && s.open.value < |opens| && opens[s.open.value].conn == s.conn)
    && (s.state == StreamNegotiating ==>
          && !conns[s.conn].closed && s.outbound == s.open.Some?
          && (s.open.Some? ==> opens[s.open.value].state == OpenNegotiating))
    && (s.state == StreamOpen ==> (s.open.Some? ==> opens[s.open.value].state == OpenEvented))
  }

  ghost predicate OpenOk(conns: seq<Conn>, v: Open) {
    && v.conn < |conns| && conns[v.conn].active
    && (v.state != OpenEvented ==> !conns[v.conn].closed)
  }

  ghost predicate Owns(s: Stream, o: nat) {
    s.state != StreamFree && s.open == Some(o)
  }

  ghost predicate Links(conns: seq<Conn>, streams: seq<Stream>, opens: seq<Open>) {
    && (forall i :: 0 <= i < |streams| && streams[i].state != StreamFree ==> StreamOk(conns, opens, streams[i]))
    && (forall o :: 0 <= o < |opens| && opens[o].state != OpenFree ==> OpenOk(conns, opens[o]))
  }

  /** NEGOTIATING opens and outbound negotiating streams match one to one. */
  ghost predicate Owners(streams: seq<Stream>, opens: seq<Open>) {
    && (forall i, j, o :: 0 <= i < |streams| && 0 <= j < |streams| && Owns(streams[i], o) && Owns(streams[j], o) ==>
          i == j)
    && (forall o :: 0 <= o < |opens| && opens[o].state == OpenNegotiating ==>
          exists i :: 0 <= i < |streams| && Owns(streams[i], o))
  }

  /** A queued event names live slots only, in the states that its kind implies. */
  ghost predicate EventOk(conns: seq<Conn>, opens: seq<Open>, e: Event) {
    && (e.conn.Some? ==>
          && e.conn.value < |conns| && conns[e.conn.value].active
          && (conns[e.conn.value].closed ==> conns[e.conn.value].closePending))
    && (e.kind == ConnClosed ==> e.conn.Some? && conns[e.conn.value].closed)
    && (e.open.Some? <==> (e.kind == StreamOpened || e.kind == StreamOpenFailed))
    && (e.kind == StreamOpened ==> e.stream.Some?)
    && (e.open.Some? ==>
          && e.open.value < |opens| && opens[e.open.value].state == OpenEvented
          && e.conn == Some(opens[e.open.value].conn) && e.userData == opens[e.open.value].userData)
  }

  /**
    EVENTED opens and the events that carry them match one to one; a CONN_CLOSED is the last word on its connection.
  */
  ghost predicate Queue(conns: seq<Conn>, opens: seq<Open>, events: seq<Event>) {
    && (forall k :: 0 <= k < |events| ==> EventOk(conns, opens, events[k]))
    && (forall j, k :: 0 <= j < k < |events| && events[j].open.Some? ==> events[k].open != events[j].open)
    && (forall j, k :: 0 <= j < k < |events| && events[j].kind == ConnClosed ==> events[k].conn != events[j].conn)
  }

  ghost predicate Covered(conns: seq<Conn>, opens: seq<Open>, events: seq<Event>) {
    && (forall o :: 0 <= o < |opens| && opens[o].state == OpenEvented ==> Carried(events, o))
    && (forall c :: 0 <= c < |conns| && conns[c].closePending ==>
          conns[c].active && conns[c].closed && CloseQueued(events, c))
  }

  ghost predicate Carried(events: seq<Event>, o: nat) {
    exists k :: 0 <= k < |events| && events[k].open == Some(o)
  }

  ghost predicate CloseQueued(events: seq<Event>, c: nat) {
    exists k :: 0 <= k < |events| && events[k].kind == ConnClosed && events[k].conn == Some(c)
  }

  /** An open stream that still points at its open attempt is the stream the queued STREAM_OPENED names. */
  ghost predicate Announced(streams: seq<Stream>, events: seq<Event>) {
    forall i :: 0 <= i < |streams| && streams[i].state == StreamOpen && streams[i].open.Some? ==>
      exists k :: 0 <= k < |events| && Announces(events[k], i, streams[i].open.value)
  }

  ghost predicate Announces(e: Event, i: nat, o: nat) {
    e.kind == StreamOpened && e.stream == Some(i) && e.open == Some(o)
  }

  /** Both reference counts are exact, and no connection exceeds its own stream limit. */
  ghost predicate Tallies(conns: seq<Conn>, streams: seq<Stream>, opens: seq<Open>, maxStreams: nat) {
    forall c :: 0 <= c < |conns| ==>
      conns[c].streamCount == StreamsOn(streams, c) <= maxStreams && conns[c].openCount == OpensOn(opens, c)
  }

  /** EVENTED dials and the events that carry them match one to one. */
  ghost predicate DialsOk(dials: seq<Dial>, events: seq<Event>) {
    && (forall k :: 0 <= k < |events| && events[k].dial.Some? ==>
          && events[k].dial.value < |dials| && dials[events[k].dial.value].state == DialEvented
          && events[k].userData == dials[events[k].dial.value].userData)
    && (forall j, k :: 0 <= j < k < |events| && events[j].dial.Some? ==> events[k].dial != events[j].dial)
    && (forall d :: 0 <= d < |dials| && dials[d].state == DialEvented ==> DialCarried(events, d))
  }

  ghost predicate DialCarried(events: seq<Event>, d: nat) {
    exists k :: 0 <= k < |events| && events[k].dial == Some(d)
  }

  /** Every accepted open attempt is either still in exactly one slot or was reported exactly once. */
  ghost predicate Attempts(opens: seq<Open>, issued: nat, resolved: seq<nat>) {
    && (forall o :: 0 <= o < |opens| && opens[o].state != OpenFree ==> opens[o].id < issued && opens[o].id !in resolved)
    && (forall o, q :: 0 <= o < q < |opens| && opens[o].state != OpenFree && opens[q].state != OpenFree ==>
          opens[o].id != opens[q].id)
    && (forall j, k :: 0 <= j < k < |resolved| ==> resolved[j] != resolved[k])
    && (forall x :: x in resolved ==> x < issued)
    && (forall x: nat :: x < issued ==> x in resolved || Live(opens, x))
  }

  ghost predicate Live(opens: seq<Open>, x: nat) {
    exists o :: 0 <= o < |opens| && opens[o].state != OpenFree && opens[o].id == x
  }

  /** Where the callbacks of one stream incarnation stand. */
  datatype Talk = Silent | Talking | Over | Wrong

  function TalkOf(calls: seq<Call>, id: nat): Talk {
    if calls == [] then Silent
    else
      var k := |calls| - 1;
      var t := TalkOf(calls[..k], id);
      if calls[k].stream == id then NextTalk(t, calls[k]) else t
  }

  /** on_open once, then readable/writable/reset, then at most one closed; a refusal ends it. */
  function NextTalk(t: Talk, c: Call): Talk {
    if t == Silent && c.callback == OnOpen then if c.ok then Talking else Over
    else if t == Talking && c.callback != OnOpen then
      if c.ok && c.callback != OnClosed then Talking else Over
    else Wrong
  }

  ghost predicate Talks(streams: seq<Stream>, born: nat, calls: seq<Call>) {
    && (forall id :: TalkOf(calls, id) != Wrong)
    && (forall id :: id >= born ==> TalkOf(calls, id) == Silent)
    && (forall i :: 0 <= i < |streams| && streams[i].state != StreamFree ==> streams[i].id < born)
    && (forall i :: 0 <= i < |streams| && streams[i].state == StreamNegotiating ==>
          TalkOf(calls, streams[i].id) == Silent)
    && (forall i :: 0 <= i < |streams| && streams[i].state == StreamOpen ==> TalkOf(calls, streams[i].id) == Talking)
    && (forall i, j :: 0 <= i < j < |streams| && streams[i].state != StreamFree && streams[j].state != StreamFree ==>
          streams[i].id != streams[j].id)
  }

  /** HOST_CLOSED is queued at most once, and only by a host that is closed. */
  ghost predicate LastWord(events: seq<Event>, phase: Phase) {
    && (forall k :: 0 <= k < |events| && events[k].kind == HostClosed ==> phase == Closed)
    && (forall j, k :: 0 <= j < k < |events| && events[j].kind == HostClosed ==> events[k].kind != HostClosed)
  }

  /** Who points at whom, and how many. */
  ghost predicate Structure(h: Host) {
    && Zeroed(h.conns, h.streams, h.opens)
    && Links(h.conns, h.streams, h.opens)
    && Owners(h.streams, h.opens)
    && Tallies(h.conns, h.streams, h.opens, h.maxStreams)
  }

  /** What the queued events refer to, and what must be queued. */
  ghost predicate Queued(h: Host) {
    && Queue(h.conns, h.opens, h.events)
    && Covered(h.conns, h.opens, h.events)
    && Announced(h.streams, h.events)
    && DialsOk(h.dials, h.events)
  }

  ghost predicate History(h: Host) {
    Attempts(h.opens, h.issued, h.resolved) && Talks(h.streams, h.born, h.calls)
  }

  ghost predicate Inv(h: Host) {
    Sizes(h) && Structure(h) && Queued(h) && History(h) && LastWord(h.events, h.phase)
  }
}
