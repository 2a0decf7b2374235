/** The host as it runs: fixed tables, a ring of events and three cursors, updated in place. */
module HostImpl {
  import opened Bytes
  import opened Host
  import Negotiation
  import Ring

  // ----------------------------------------------------- what a table scan has found

  lemma ConnFound(h: Host, handle: nat, k: nat)
    requires k <= |h.conns| && (k < |h.conns| ==> h.conns[k].active && h.conns[k].handle == handle)
    requires forall j :: 0 <= j < k ==> !(h.conns[j].active && h.conns[j].handle == handle)
    ensures FindConn(h, handle) == k
  {
  }

  lemma FreeConnFound(h: Host, k: nat)
    requires k <= |h.conns| && (k < |h.conns| ==> !h.conns[k].active)
    requires forall j :: 0 <= j < k ==> h.conns[j].active
    ensures FreeConn(h) == k
  {
  }

  lemma StreamFound(h: Host, handle: nat, k: nat)
    requires k <= |h.streams| && (k < |h.streams| ==> h.streams[k].state != StreamFree && h.streams[k].handle == handle)
    requires forall j :: 0 <= j < k ==> !(h.streams[j].state != StreamFree && h.streams[j].handle == handle)
    ensures FindStream(h, handle) == k
  {
  }

  lemma FreeStreamFound(h: Host, k: nat)
    requires k <= |h.streams| && (k < |h.streams| ==> h.streams[k].state == StreamFree)
    requires forall j :: 0 <= j < k ==> h.streams[j].state != StreamFree
    ensures FreeStream(h) == k
  {
  }

  lemma FreeOpenFound(h: Host, k: nat)
    requires k <= |h.opens| && (k < |h.opens| ==> h.opens[k].state == OpenFree)
    requires forall j :: 0 <= j < k ==> h.opens[j].state != OpenFree
    ensures FreeOpen(h) == k
  {
  }

  lemma OwnerIs(h: Host, o: nat, k: nat)
    requires k <= |h.streams| && (k < |h.streams| ==> h.streams[k].state != StreamFree && h.streams[k].open == Some(o))
    requires forall j :: 0 <= j < k ==> !(h.streams[j].state != StreamFree && h.streams[j].open == Some(o))
    ensures OwnerOf(h, o) == k
  {
  }

  lemma DialFound(h: Host, attempt: nat, k: nat)
    requires k <= |h.dials| && (k < |h.dials| ==> h.dials[k].state == DialPending && h.dials[k].attempt == attempt)
    requires forall j :: 0 <= j < k ==> !(h.dials[j].state == DialPending && h.dials[j].attempt == attempt)
    ensures FindDial(h, attempt) == k
  {
  }

  lemma SameDials(h: Host, g: Host, attempt: nat)
    requires g.dials == h.dials
    ensures FindDial(g, attempt) == FindDial(h, attempt)
  {
  }

  lemma OnlyState(h: Host, d: nat)
    ensures MarkDial(h, d) == h.(dials := MarkDial(h, d).dials)
  {
  }

  lemma FreeDialFound(h: Host, k: nat)
    requires k <= |h.dials| && (k < |h.dials| ==> h.dials[k].state == DialFree)
    requires forall j :: 0 <= j < k ==> h.dials[j].state != DialFree
    ensures FreeDial(h) == k
  {
  }

  // ------------------------------------------------------------- negotiation records

  /** The protocol ids that an open was asked for. */
  datatype Proposal = Proposal(protocol: Negotiation.Id, fallback: Option<Negotiation.Id>)

  /** A negotiating stream's record: one of its direction that steps from a fresh one lead to, and not at its end. */
  ghost predicate Keeps(registry: seq<Negotiation.Id>, s: Stream, n: Negotiation.Stream) {
    s.state == StreamNegotiating ==>
      n.outbound == s.outbound && Negotiation.Negotiating(n) && Negotiation.Reached(registry, n)
  }

  ghost predicate Matched(registry: seq<Negotiation.Id>, streams: seq<Stream>, records: seq<Negotiation.Stream>) {
    |streams| == |records| && forall i :: 0 <= i < |streams| ==> Keeps(registry, streams[i], records[i])
  }

  /** A slot that is written without starting a negotiation leaves its record good. */
  lemma MatchedSlot(registry: seq<Negotiation.Id>, streams: seq<Stream>, records: seq<Negotiation.Stream>, i: nat,
                    s: Stream)
    requires Matched(registry, streams, records) && i < |streams|
    requires s.state == StreamNegotiating ==>
      streams[i].state == StreamNegotiating && streams[i].outbound == s.outbound
    ensures Matched(registry, streams[i := s], records)
  {
  }

  lemma MatchedRecord(registry: seq<Negotiation.Id>, streams: seq<Stream>, records: seq<Negotiation.Stream>, i: nat,
                      s: Stream, n: Negotiation.Stream)
    requires Matched(registry, streams, records) && i < |streams| && Keeps(registry, s, n)
    ensures Matched(registry, streams[i := s], records[i := n])
  {
  }

  /** Only connections and opens matter to the status. */
  lemma ResolveStatusIs(h: Host, g: Host, o: nat, c: nat, a: Released)
    requires h.conns == g.conns && h.opens == g.opens
    ensures RecycleStatus(OpenRelease(h, o), c, a) == RecycleStatus(OpenRelease(g, o), c, a)
  {
  }

  // ------------------------------------------------------------------------ the class

  class LiveHost {
    const maxStreams: nat
    const registry: seq<Negotiation.Id>
    const conns: array<Conn>
    const streams: array<Stream>
    const opens: array<Open>
    const dials: array<Dial>
    const ring: array<Event>
    const records: array<Negotiation.Stream>
    const wanted: array<Proposal>
    var phase: Phase
    var driving: bool
    var head: nat
    var len: nat
    var openCursor: nat
    var negotiationCursor: nat
    var protocolCursor: nat
    // history, as in Host
    var lost: nat
    var issued: nat
    var resolved: seq<nat>
    var born: nat
    var calls: seq<Call>

    ghost predicate Valid()
      reads this, streams, records
    {
      && ring.Length > 0 && head < ring.Length && len <= ring.Length
      && streams.Length > 0 && opens.Length > 0
      && openCursor < opens.Length && negotiationCursor < streams.Length && protocolCursor < streams.Length
      && records.Length == streams.Length && wanted.Length == opens.Length
      && Matched(registry, streams[..], records[..])
    }

    ghost function Model(): Host
      requires Valid()
      reads this, conns, streams, opens, dials, ring, records
    {
      Host(phase, driving, maxStreams, ring.Length, conns[..], streams[..], opens[..], dials[..],
           Ring.Contents(ring[..], head, len), lost, issued, resolved, born, calls)
    }

    constructor (m: Limits, protocols: seq<Negotiation.Id>)
      requires ValidLimits(m)
      ensures Valid() && Model() == Fresh(m) && registry == protocols
      ensures fresh(conns) && fresh(streams) && fresh(opens) && fresh(dials) && fresh(ring)
      ensures fresh(records) && fresh(wanted)
    {
      maxStreams, registry := m.streamsPerConn, protocols;
      conns := new Conn[m.conns](_ => NO_CONN);
      assert m.conns * m.streamsPerConn > 0;
      streams := new Stream[m.conns * m.streamsPerConn](_ => NO_STREAM);
      opens := new Open[m.opens](_ => NO_OPEN);
      dials := new Dial[m.dials](_ => NO_DIAL);
      ring := new Event[m.events](_ => Event(HostClosed, None, None, None, None));
      records := new Negotiation.Stream[m.conns * m.streamsPerConn](_ => Negotiation.NewInbound());
      wanted := new Proposal[m.opens](_ => Proposal(Negotiation.MS, None));
      phase, driving := Started, false;
      head, len := 0, 0;
      openCursor, negotiationCursor, protocolCursor := 0, 0, 0;
      lost, issued, resolved, born, calls := 0, 0, [], 0, [];
      new;
      assert conns[..] == Fresh(m).conns && streams[..] == Fresh(m).streams;
      assert opens[..] == Fresh(m).opens && dials[..] == Fresh(m).dials;
    }

    // -------------------------------------------------------------------- scans

    method ScanConn(handle: nat) returns (c: nat)
      requires Valid()
      ensures c == FindConn(Model(), handle) && c <= conns.Length
    {
      c := 0;
      while c < conns.Length && !(conns[c].active && conns[c].handle == handle)
        invariant c <= conns.Length
        invariant forall j :: 0 <= j < c ==> !(conns[j].active && conns[j].handle == handle)
      {
        c := c + 1;
      }
      ConnFound(Model(), handle, c);
    }

    method ScanFreeConn() returns (c: nat)
      requires Valid()
      ensures c == FreeConn(Model()) && c <= conns.Length
    {
      c := 0;
      while c < conns.Length && conns[c].active
        invariant c <= conns.Length
        invariant forall j :: 0 <= j < c ==> conns[j].active
      {
        c := c + 1;
      }
      FreeConnFound(Model(), c);
    }

    method ScanStream(handle: nat) returns (i: nat)
      requires Valid()
      ensures i == FindStream(Model(), handle) && i <= streams.Length
    {
      i := 0;
      while i < streams.Length && !(streams[i].state != StreamFree && streams[i].handle == handle)
        invariant i <= streams.Length
        invariant forall j :: 0 <= j < i ==> !(streams[j].state != StreamFree && streams[j].handle == handle)
      {
        i := i + 1;
      }
      StreamFound(Model(), handle, i);
    }

    method ScanFreeStream() returns (i: nat)
      requires Valid()
      ensures i == FreeStream(Model()) && i <= streams.Length
    {
      i := 0;
      while i < streams.Length && streams[i].state != StreamFree
        invariant i <= streams.Length
        invariant forall j :: 0 <= j < i ==> streams[j].state != StreamFree
      {
        i := i + 1;
      }
      FreeStreamFound(Model(), i);
    }

    method ScanFreeOpen() returns (o: nat)
      requires Valid()
      ensures o == FreeOpen(Model()) && o <= opens.Length
    {
      o := 0;
      while o < opens.Length && opens[o].state != OpenFree
        invariant o <= opens.Length
        invariant forall j :: 0 <= j < o ==> opens[j].state != OpenFree
      {
        o := o + 1;
      }
      FreeOpenFound(Model(), o);
    }

    method ScanOwner(o: nat) returns (i: nat)
      requires Valid()
      ensures i == OwnerOf(Model(), o) && i <= streams.Length
    {
      i := 0;
      while i < streams.Length && !(streams[i].state != StreamFree && streams[i].open == Some(o))
        invariant i <= streams.Length
        invariant forall j :: 0 <= j < i ==> !(streams[j].state != StreamFree && streams[j].open == Some(o))
      {
        i := i + 1;
      }
      OwnerIs(Model(), o, i);
    }

    method ScanDial(attempt: nat) returns (d: nat)
      requires Valid()
      ensures d == FindDial(Model(), attempt) && d <= dials.Length
    {
      d := 0;
      while d < dials.Length && !(dials[d].state == DialPending && dials[d].attempt == attempt)
        invariant d <= dials.Length
        invariant forall j :: 0 <= j < d ==> !(dials[j].state == DialPending && dials[j].attempt == attempt)
      {
        d := d + 1;
      }
      DialFound(Model(), attempt, d);
    }

    method ScanFreeDial() returns (d: nat)
      requires Valid()
      ensures d == FreeDial(Model()) && d <= dials.Length
    {
      d := 0;
      while d < dials.Length && dials[d].state != DialFree
        invariant d <= dials.Length
        invariant forall j :: 0 <= j < d ==> dials[j].state != DialFree
      {
        d := d + 1;
      }
      FreeDialFound(Model(), d);
    }

    // ---------------------------------------------------------------- table writes

    method SetConnSlot(c: nat, v: Conn)
      requires Valid() && c < conns.Length
      modifies conns
      ensures Valid() && Model() == old(Model()).(conns := old(Model()).conns[c := v])
    {
      conns[c] := v;
    }

    method SetStreamSlot(i: nat, s: Stream)
      requires Valid() && i < streams.Length
      requires s.state == StreamNegotiating ==>
        streams[i].state == StreamNegotiating && streams[i].outbound == s.outbound
      modifies streams
      ensures Valid() && Model() == old(Model()).(streams := old(Model()).streams[i := s])
    {
      hide Matched, Ring.Contents;
      MatchedSlot(registry, streams[..], records[..], i, s);
      ghost var was := streams[..];
      streams[i] := s;
      assert streams[..] == was[i := s];
    }

    /** A stream starts to negotiate, with a fresh record. */
    method BeginStream(i: nat, s: Stream, n: Negotiation.Stream)
      requires Valid() && i < streams.Length && n.outbound == s.outbound && Negotiation.Begins(n)
      modifies streams, records
      ensures Valid() && Model() == old(Model()).(streams := old(Model()).streams[i := s])
      ensures records[..] == old(records[..])[i := n]
    {
      hide Matched, Ring.Contents, Negotiation.Begins, Negotiation.Reached;
      Negotiation.BeginsReached(registry, n);
      MatchedRecord(registry, streams[..], records[..], i, s, n);
      ghost var was, kept := streams[..], records[..];
      streams[i] := s;
      records[i] := n;
      assert streams[..] == was[i := s] && records[..] == kept[i := n];
    }

    method SetOpenSlot(o: nat, v: Open)
      requires Valid() && o < opens.Length
      modifies opens
      ensures Valid() && Model() == old(Model()).(opens := old(Model()).opens[o := v])
    {
      opens[o] := v;
    }

    method SetDialSlot(d: nat, v: Dial)
      requires Valid() && d < dials.Length
      modifies dials
      ensures Valid() && Model() == old(Model()).(dials := old(Model()).dials[d := v])
    {
      dials[d] := v;
    }

    // ---------------------------------------------------------------- the event ring

    /** host_event_push */
    method EventPush(e: Event) returns (ok: bool)
      requires Valid()
      modifies this`len, this`lost, ring
      ensures Valid() && Model() == Push(old(Model()), e) && ok == PushFits(old(Model()))
      ensures lost == old(lost) + if ok then 0 else 1
    {
      if len == ring.Length {
        lost := lost + 1;
        return false;
      }
      Ring.Pushed(ring[..], head, len, e);
      ghost var was := ring[..];
      var pos := (head + len) % ring.Length;
      ring[pos] := e;
      assert ring[..] == was[pos := e];
      len := len + 1;
      ok := true;
    }

    method EventPop() returns (e: Event)
      requires Valid() && len > 0
      modifies this`head, this`len
      ensures Valid() && old(Model()).events != [] && e == old(Model()).events[0]
      ensures Model() == old(Model()).(events := old(Model()).events[1..])
    {
      Ring.Popped(ring[..], head, len);
      Ring.Oldest(ring[..], head, len);
      hide Ring.Contents;
      e := ring[head];
      head := (head + 1) % ring.Length;
      len := len - 1;
    }

    // -------------------------------------------------------------- giving slots back

    /** host_conn_try_recycle; the answer of conn_release is asked for only when the slot is quiet. */
    method Recycle(c: nat, a: Released) returns (status: Status)
      requires Valid()
      modifies conns
      ensures Valid() && Model() == TryRecycle(old(Model()), c, a) && status == RecycleStatus(old(Model()), c, a)
    {
      status := Ok;
      if c < conns.Length && Recyclable(conns[c]) {
        if a == ReleasedNow { SetConnSlot(c, NO_CONN); }
        if a == ReleaseError { status := ErrTransport; }
      }
    }

    method Uncount(c: nat, stream: bool)
      requires Valid()
      modifies conns
      ensures Valid()
      ensures
        var v := ConnAt(old(Model()), c);
        Model() == SetConn(old(Model()), c,
          if stream then v.(streamCount := Minus1(v.streamCount)) else v.(openCount := Minus1(v.openCount)))
    {
      if c < conns.Length {
        var v := conns[c];
        if stream && v.streamCount != 0 {
          v := v.(streamCount := v.streamCount - 1);
        } else if !stream && v.openCount != 0 {
          v := v.(openCount := v.openCount - 1);
        }
        SetConnSlot(c, v);
      }
    }

    /** host_open_release */
    method ReleaseOpen(o: nat)
      requires Valid()
      modifies conns, opens
      ensures Valid() && Model() == OpenRelease(old(Model()), o)
    {
      if o < opens.Length && opens[o].state != OpenFree {
        Uncount(opens[o].conn, false);
        SetOpenSlot(o, NO_OPEN);
      }
    }

    /** host_stream_release */
    method ReleaseStream(i: nat, a: Released)
      requires Valid()
      modifies conns, streams, opens
      ensures Valid() && Model() == StreamRelease(old(Model()), i, a)
    {
      hide OpenRelease, TryRecycle, Matched, Ring.Contents;
      if i < streams.Length && streams[i].state != StreamFree {
        var s := streams[i];
        Uncount(s.conn, true);
        if s.open.Some? && s.open.value < opens.Length && opens[s.open.value].state != OpenEvented {
          ReleaseOpen(s.open.value);
        }
        SetStreamSlot(i, NO_STREAM);
        var status := Recycle(s.conn, a);
      }
    }

    // --------------------------------------------------------- opens that end in an event

    /** The open is marked evented and reported failed; without room its slot is given back. */
    method GiveUp(o: nat) returns (ok: bool)
      requires Valid() && o < opens.Length
      modifies this`len, this`lost, ring, conns, opens
      ensures Valid() && Model() == FailOpen(old(Model()), o) && ok == PushFits(old(Model()))
      ensures lost == old(lost) + if ok then 0 else 1
    {
      var c := opens[o].conn;
      SetOpenSlot(o, opens[o].(state := OpenEvented));
      ok := EventPush(Event(StreamOpenFailed, Some(c), None, None, Some(o), None, opens[o].userData));
      if !ok {
        ReleaseOpen(o);
      }
      hide OpenRelease;
    }

    /** host_stream_fail_negotiation */
    method Abandon(i: nat, a: Released) returns (ok: bool)
      requires Valid() && i < streams.Length
      modifies this`len, this`lost, ring, conns, opens, streams
      ensures Valid() && Model() == FailNegotiation(old(Model()), i, a)
      ensures lost == old(lost) + if ok then 0 else 1
    {
      ok := true;
      var s := streams[i];
      if s.outbound && s.open.Some? && s.open.value < opens.Length {
        ok := GiveUp(s.open.value);
      }
      hide FailOpen, StreamRelease;
      ReleaseStream(i, a);
    }

    /** host_stream_complete_negotiation, with the protocol's answer to on_open */
    method Complete(i: nat, onOpen: CallbackAnswer, a: Released) returns (ok: bool)
      requires Valid() && i < streams.Length
      modifies this`len, this`lost, this`calls, ring, conns, opens, streams
      ensures Valid() && Model() == CompleteNegotiation(old(Model()), i, onOpen, a) && (ok <==> lost == old(lost))
    {
      hide FailNegotiation, OpenRelease, Matched, Ring.Contents;
      var s := streams[i];
      calls := calls + [Call(s.id, OnOpen, onOpen != Refused)];
      if onOpen == Refused {
        SetStreamSlot(i, s.(state := StreamOpen));
        ok := Abandon(i, a);
      } else {
        ok := Promote(i, s.(state := StreamOpen, readable := true, writable := true));
      }
    }

    method Promote(i: nat, s: Stream) returns (ok: bool)
      requires Valid() && i < streams.Length && s.state == StreamOpen
      modifies this`len, this`lost, ring, conns, opens, streams
      ensures Valid() && (ok <==> lost == old(lost))
      ensures
        var h := old(Model());
        var h2 := h.(streams := h.streams[i := s]);
        Model() ==
          if s.outbound && s.open.Some? && s.open.value < |h.opens| then
            var o := s.open.value;
            var e := Event(StreamOpened, Some(s.conn), Some(i), None, Some(o), Some(s.id), h.opens[o].userData);
            var h3 := h2.(opens := h.opens[o := h.opens[o].(state := OpenEvented)]);
            if PushFits(h) then Push(h3, e)
            else OpenRelease(Push(h3, e), o).(streams := h.streams[i := s.(open := None)])
          else h2
    {
      hide OpenRelease, Matched, Ring.Contents;
      ok := true;
      ghost var was := streams[..];
      SetStreamSlot(i, s);
      if s.outbound && s.open.Some? && s.open.value < opens.Length {
        ok := Announce(i, s.open.value, s.conn, s.id);
        if !ok {
          SetStreamSlot(i, s.(open := None));
          assert was[i := s][i := s.(open := None)] == was[i := s.(open := None)];
        }
      }
    }

    method Announce(i: nat, o: nat, c: nat, id: nat) returns (ok: bool)
      requires Valid() && o < opens.Length
      modifies this`len, this`lost, ring, conns, opens
      ensures Valid() && ok == PushFits(old(Model())) && lost == old(lost) + if ok then 0 else 1
      ensures
        var h := old(Model());
        var e := Event(StreamOpened, Some(c), Some(i), None, Some(o), Some(id), h.opens[o].userData);
        var h1 := Push(h.(opens := h.opens[o := h.opens[o].(state := OpenEvented)]), e);
        Model() == if ok then h1 else OpenRelease(h1, o)
    {
      SetOpenSlot(o, opens[o].(state := OpenEvented));
      ok := EventPush(Event(StreamOpened, Some(c), Some(i), None, Some(o), Some(id), opens[o].userData));
      if !ok {
        ReleaseOpen(o);
      }
      hide OpenRelease;
    }

    /** host_stream_alloc */
    method TakeStream(c: nat, handle: nat, open: Option<nat>) returns (i: Option<nat>)
      requires Valid() && c < conns.Length && (open.Some? ==> open.value < opens.Length)
      modifies this`born, conns, streams, records
      ensures Valid() && i == StreamSlot(old(Model()), c)
      ensures i.Some? ==> i.value < streams.Length && Model() == StreamAlloc(old(Model()), i.value, c, handle, open)
      ensures i.Some? ==> records[..] == old(records[..])[i.value := NewRecord(open)]
      ensures i.None? ==> Model() == old(Model()) && records[..] == old(records[..])
    {
      hide FreeStream, Matched, Ring.Contents;
      if conns[c].streamCount >= maxStreams {
        return None;
      }
      var k := ScanFreeStream();
      if k == streams.Length {
        return None;
      }
      FillStream(k, c, handle, open);
      i := Some(k);
    }

    /** The record of a new stream: an outbound one proposes what its open was asked for. */
    function NewRecord(open: Option<nat>): Negotiation.Stream
      requires open.Some? ==> open.value < wanted.Length
      reads wanted
    {
      if open.Some? then Negotiation.NewOutbound(wanted[open.value].protocol, wanted[open.value].fallback)
      else Negotiation.NewInbound()
    }

    lemma RecordBegins(open: Option<nat>)
      requires open.Some? ==> open.value < wanted.Length
      ensures NewRecord(open).outbound == open.Some? && Negotiation.Begins(NewRecord(open))
    {
    }

    method FillStream(k: nat, c: nat, handle: nat, open: Option<nat>)
      requires Valid() && c < conns.Length && k < streams.Length && (open.Some? ==> open.value < opens.Length)
      modifies this`born, conns, streams, records
      ensures Valid() && Model() == StreamAlloc(old(Model()), k, c, handle, open)
      ensures records[..] == old(records[..])[k := NewRecord(open)]
    {
      hide Matched, Ring.Contents, Negotiation.Begins;
      var n := NewRecord(open);
      RecordBegins(open);
      BeginStream(k, Stream(StreamNegotiating, c, handle, open.Some?, open, false, false, false, false, born), n);
      SetConnSlot(c, conns[c].(streamCount := conns[c].streamCount + 1));
      born := born + 1;
    }

    // ------------------------------------------------------------------- public calls

    /** libp2p_host_dial, with the transport's answer */
    method DialOut(attempt: nat, userData: nat, ok: bool) returns (status: Status)
      requires Valid()
      modifies dials
      ensures Valid() && Model() == DialCall(old(Model()), attempt, userData, ok)
      ensures status == DialStatus(old(Model()), ok)
    {
      if phase != Started { return ErrClosed; }
      var d := ScanFreeDial();
      if d == dials.Length { return Limit; }
      SetDialSlot(d, if ok then Dial(DialPending, attempt, userData) else NO_DIAL);
      status := if ok then Ok else ErrTransport;
    }

    /** host_protocol_find, for a protocol and an optional fallback */
    predicate Known(protocol: seq<byte>, fallback: Option<seq<byte>>) {
      protocol in registry && (fallback.Some? ==> fallback.value in registry)
    }

    /** libp2p_host_open_stream(_with_fallback), with the transport's answer */
    method OpenStreamCall(c: nat, protocol: seq<byte>, fallback: Option<seq<byte>>, userData: nat, a: OpenAnswer)
      returns (status: Status)
      requires Valid()
      modifies this`issued, this`born, conns, opens, streams, records, wanted
      ensures Valid()
      ensures phase == Closed || (protocol != [] && fallback != Some([])) ==>
        (Model(), status) == OpenStream(old(Model()), c, Known(protocol, fallback), userData, a)
      ensures phase != Closed && (protocol == [] || fallback == Some([])) ==>
        Model() == old(Model()) && status == InvalidArg
    {
      hide TryOpen, FreeOpen, Matched, Ring.Contents;
      if phase == Closed { return ErrClosed; }
      if protocol == [] || fallback == Some([]) || c >= conns.Length || !conns[c].active { return InvalidArg; }
      if phase == Closing || conns[c].closed { return ErrClosed; }
      if !Known(protocol, fallback) { return NotFound; }
      var o := ScanFreeOpen();
      if o == opens.Length { return Limit; }
      Enlist(o, c, userData);
      wanted[o] := Proposal(protocol, if fallback.Some? then Some(fallback.value) else None);
      status := AskTransport(c, o, a);
    }

    method Enlist(o: nat, c: nat, userData: nat)
      requires Valid() && o < opens.Length && c < conns.Length
      modifies conns, opens
      ensures Valid()
      ensures
        var h := old(Model());
        Model() == h.(opens := h.opens[o := Open(OpenWaiting, c, userData, h.issued)],
                      conns := h.conns[c := h.conns[c].(openCount := h.conns[c].openCount + 1)])
    {
      SetOpenSlot(o, Open(OpenWaiting, c, userData, issued));
      SetConnSlot(c, conns[c].(openCount := conns[c].openCount + 1));
    }

    /** The transport is asked for a stream for the waiting open o on connection c. */
    method AskTransport(c: nat, o: nat, a: OpenAnswer) returns (status: Status)
      requires Valid() && o < opens.Length && c < conns.Length && opens[o].state == OpenWaiting && opens[o].conn == c
      modifies this`issued, this`born, conns, opens, streams, records
      ensures Valid()
      ensures (Model(), status) == TryOpen(old(Model()), o, c, a)
    {
      hide OpenRelease, FreeStream, Matched, Ring.Contents;
      match a
      case OpenWouldBlock =>
        issued := issued + 1;
        status := Ok;
      case OpenError =>
        ReleaseOpen(o);
        status := ErrTransport;
      case Opened(handle) =>
        var i := TakeStream(c, handle, Some(o));
        if i.None? {
          ReleaseOpen(o);
          status := Limit;
        } else {
          SetOpenSlot(o, opens[o].(state := OpenNegotiating));
          issued := issued + 1;
          status := Ok;
        }
    }

    /** libp2p_host_stream_open_cancel */
    method CancelCall(o: nat, userData: nat, a: Released) returns (status: Status)
      requires Valid()
      modifies this`resolved, conns, opens, streams
      ensures Valid() && (Model(), status) == Cancel(old(Model()), o, userData, a)
    {
      hide OpenRelease, StreamRelease, TryRecycle, OwnerOf;
      if phase == Closed { return ErrClosed; }
      if o >= opens.Length { return InvalidArg; }
      if opens[o].state == OpenFree || opens[o].userData != userData { return NotFound; }
      if opens[o].state == OpenEvented { return ErrState; }
      var c := opens[o].conn;
      if opens[o].state == OpenWaiting {
        resolved := resolved + [opens[o].id];
        var recycled := DropOpen(o, c, a);
      } else {
        var i := ScanOwner(o);
        if i == streams.Length { return ErrState; }
        CancelOwner(i, o, c, a);
      }
      status := Ok;
    }

    method DropOpen(o: nat, c: nat, a: Released) returns (status: Status)
      requires Valid()
      modifies conns, opens
      ensures Valid() && Model() == TryRecycle(OpenRelease(old(Model()), o), c, a)
      ensures status == RecycleStatus(OpenRelease(old(Model()), o), c, a)
    {
      hide OpenRelease, TryRecycle, RecycleStatus;
      ReleaseOpen(o);
      status := Recycle(c, a);
    }

    method CancelOwner(i: nat, o: nat, c: nat, a: Released)
      requires Valid() && i < streams.Length && o < opens.Length
      modifies this`resolved, conns, opens, streams
      ensures Valid()
      ensures
        var h := old(Model());
        var h1 := h.(resolved := h.resolved + [h.opens[o].id], streams := h.streams[i := h.streams[i].(open := None)]);
        Model() == TryRecycle(OpenRelease(StreamRelease(h1, i, a), o), c, a)
    {
      hide OpenRelease, StreamRelease, TryRecycle;
      resolved := resolved + [opens[o].id];
      SetStreamSlot(i, streams[i].(open := None));
      ReleaseStream(i, a);
      var status := DropOpen(o, c, a);
    }

    /** libp2p_host_next_event: nothing to report, or the oldest event and what consuming it sets free. */
    method NextEventCall(a: Released) returns (e: Option<Event>, status: Status)
      requires Valid()
      modifies this`head, this`len, this`resolved, conns, opens, streams, dials
      ensures Valid()
      ensures
        var h := old(Model());
        if h.events == [] then e == None && status == WouldBlock && Model() == h
        else
          && e == Some(h.events[0]) && Model() == NextEvent(h, a) && status == NextEventStatus(h, a)
    {
      hide Resolve, Undial, ReadClose, ResolveStatus, ReadCloseStatus, Matched, Ring.Contents;
      if len == 0 { return None, WouldBlock; }
      var x := EventPop();
      e, status := Some(x), Ok;
      UndialSlot(x);
      if x.open.Some? && x.open.value < opens.Length {
        status := ResolveOpen(x, a);
      }
      var more := CloseRead(x, a);
      if status == Ok { status := more; }
    }

    method UndialSlot(e: Event)
      requires Valid()
      modifies dials
      ensures Valid() && Model() == Undial(old(Model()), e)
    {
      if e.dial.Some? && e.dial.value < dials.Length {
        SetDialSlot(e.dial.value, dials[e.dial.value].(state := DialFree));
      }
    }

    method CloseRead(e: Event, a: Released) returns (status: Status)
      requires Valid()
      modifies conns
      ensures Valid() && Model() == ReadClose(old(Model()), e, a) && status == ReadCloseStatus(old(Model()), e, a)
    {
      hide TryRecycle, Matched, Ring.Contents;
      status := Ok;
      if e.kind == ConnClosed && e.conn.Some? && e.conn.value < conns.Length {
        SetConnSlot(e.conn.value, conns[e.conn.value].(closePending := false));
        status := Recycle(e.conn.value, a);
      }
    }

    method ResolveOpen(e: Event, a: Released) returns (status: Status)
      requires Valid() && e.open.Some? && e.open.value < opens.Length
      modifies this`resolved, conns, opens, streams
      ensures Valid() && Model() == Resolve(old(Model()), e, a) && status == ResolveStatus(old(Model()), e, a)
    {
      hide OpenRelease, TryRecycle, RecycleStatus, Matched, Ring.Contents;
      var o := e.open.value;
      var c := opens[o].conn;
      resolved := resolved + [opens[o].id];
      if e.kind == StreamOpened && e.stream.Some? && e.stream.value < streams.Length
        && streams[e.stream.value].open == Some(o) {
        SetStreamSlot(e.stream.value, streams[e.stream.value].(open := None));
      }
      ResolveStatusIs(old(Model()), Model(), o, c, a);
      status := DropOpen(o, c, a);
    }

    /** libp2p_host_close; the transport refuses the first conn_close at or after failAt. */
    method CloseCall(failAt: nat) returns (status: Status)
      requires Valid()
      modifies this`phase, conns
      ensures Valid() && Model() == CloseHost(old(Model()), failAt) && status == CloseStatus(old(Model()), failAt)
    {
      if phase == Closed { return ErrClosed; }
      if phase == Closing { return Ok; }
      phase, status := Closing, Ok;
      var k := 0;
      while k < conns.Length && status == Ok
        modifies conns
        invariant k <= conns.Length
        invariant status == Ok || status == ErrTransport
        invariant forall j :: 0 <= j < conns.Length ==>
          conns[j] == if j < k && j < failAt && old(conns[j]).active && !old(conns[j]).closed
                      then old(conns[j]).(localClose := true) else old(conns[j])
        invariant status == Ok ==> forall j :: failAt <= j < k ==> !(old(conns[j]).active && !old(conns[j]).closed)
        invariant status != Ok ==>
          exists j :: failAt <= j < conns.Length && old(conns[j]).active && !old(conns[j]).closed
        invariant status != Ok ==> k > failAt
      {
        if conns[k].active && !conns[k].closed {
          if k < failAt {
            conns[k] := conns[k].(localClose := true);
          } else {
            assert old(conns[k]).active && !old(conns[k]).closed;
            status := ErrTransport;
          }
        }
        k := k + 1;
      }
      assert conns[..] == CloseHost(old(Model()), failAt).conns;
      assert forall j :: 0 <= j < conns.Length ==>
        (Usable(old(Model()), j) <==> old(conns[j]).active && !old(conns[j]).closed);
    }

    method CloseConnCall(c: nat, ok: bool) returns (status: Status)
      requires Valid()
      modifies conns
      ensures Valid() && Model() == CloseConn(old(Model()), c, ok) && status == CloseConnStatus(old(Model()), c, ok)
    {
      if phase == Closed { return ErrClosed; }
      if c >= conns.Length || !conns[c].active { return InvalidArg; }
      if conns[c].closed { return ErrClosed; }
      if !ok { return ErrTransport; }
      SetConnSlot(c, conns[c].(localClose := true));
      status := Ok;
    }

    // ---------------------------------------------------------------- transport events

    method MarkEvented(d: nat)
      requires Valid()
      modifies dials
      ensures Valid() && Model() == MarkDial(old(Model()), d)
    {
      if d < dials.Length {
        SetDialSlot(d, dials[d].(state := DialEvented));
      }
    }

    /** host_conn_alloc */
    method TakeConn(handle: nat) returns (c: nat)
      requires Valid()
      modifies conns
      ensures
        var h := old(Model());
        c == (if FindConn(h, handle) < |h.conns| then FindConn(h, handle) else FreeConn(h))
      ensures
        var h := old(Model());
        Valid() && Model() ==
          if FindConn(h, handle) < |h.conns| || c == |h.conns| then h
          else h.(conns := h.conns[c := NO_CONN.(active := true, handle := handle)])
    {
      hide FindConn, FreeConn;
      c := ScanConn(handle);
      if c == conns.Length {
        c := ScanFreeConn();
        if c < conns.Length {
          SetConnSlot(c, NO_CONN.(active := true, handle := handle));
        }
      }
    }

    method HandleEstablished(handle: nat, attempt: nat, userData: nat) returns (status: Status)
      requires Valid()
      modifies this`len, this`lost, ring, conns, dials
      ensures Valid() && Model() == OnEstablished(old(Model()), handle, attempt, userData).0
      ensures status == if lost == old(lost) then OnEstablished(old(Model()), handle, attempt, userData).1 else Limit
    {
      hide FindConn, FreeConn, FindDial, MarkDial, Matched, Ring.Contents;
      var c := TakeConn(handle);
      if c == conns.Length { return Limit; }
      var d := ScanDial(attempt);
      SameDials(old(Model()), Model(), attempt);
      OnlyState(Model(), d);
      var e := Event(ConnEstablished, Some(c), None, None, None, None, userData);
      if d < dials.Length { e := Event(ConnEstablished, Some(c), None, Some(d), None, None, dials[d].userData); }
      MarkEvented(d);
      var ok := EventPush(e);
      status := if ok then Ok else Limit;
    }

    method HandleDialFailed(attempt: nat) returns (ok: bool)
      requires Valid()
      modifies this`len, this`lost, ring, dials
      ensures Valid() && Model() == OnDialFailed(old(Model()), attempt) && ok == (lost == old(lost))
    {
      ok := true;
      hide FindDial;
      var d := ScanDial(attempt);
      if d < dials.Length {
        var userData := dials[d].userData;
        MarkEvented(d);
        ok := EventPush(Event(DialFailed, None, None, Some(d), None, None, userData));
      }
    }

    /** host_conn_fail_waiting_opens */
    method FailWaitingOpens(c: nat) returns (ok: bool)
      requires Valid()
      modifies this`len, this`lost, ring, conns, opens
      ensures Valid() && Model() == FailWaiting(old(Model()), c, 0) && ok == (Model().lost == old(Model()).lost)
    {
      ok := true;
      var o := 0;
      ghost var goal := FailWaiting(Model(), c, 0);
      while o < opens.Length && ok
        invariant Valid() && o <= opens.Length
        invariant if ok then FailWaiting(Model(), c, o) == goal && lost == old(lost)
          else Model() == goal && lost > old(lost)
      {
        hide FailOpen;
        if opens[o].state == OpenWaiting && opens[o].conn == c {
          ok := GiveUp(o);
        }
        o := o + 1;
      }
    }

    /** host_conn_close_streams */
    method CloseConnStreams(c: nat, a: Released) returns (ok: bool)
      requires Valid()
      modifies this`len, this`lost, ring, conns, opens, streams
      ensures Valid() && Model() == CloseStreams(old(Model()), c, 0, a) && ok == (Model().lost == old(Model()).lost)
    {
      ok := true;
      var i := 0;
      ghost var goal := CloseStreams(Model(), c, 0, a);
      while i < streams.Length && ok
        invariant Valid() && i <= streams.Length
        invariant if ok then CloseStreams(Model(), c, i, a) == goal && lost == old(lost)
          else Model() == goal && lost != old(lost)
      {
        ghost var before := Model();
        hide CloseStream;
        ok := CloseOne(c, i, a);
        assert |before.streams| == streams.Length;
        i := i + 1;
      }
    }

    method CloseOne(c: nat, i: nat, a: Released) returns (ok: bool)
      requires Valid() && i < streams.Length
      modifies this`len, this`lost, ring, conns, opens, streams
      ensures Valid() && Model() == CloseStream(old(Model()), c, i, a)
      ensures lost == old(lost) + if ok then 0 else 1
    {
      hide FailNegotiation;
      ok := true;
      var s := streams[i];
      if s.state != StreamFree && s.conn == c {
        if s.state == StreamNegotiating {
          ok := Abandon(i, a);
        } else {
          SetStreamSlot(i, s.(closed := true));
        }
      }
    }

    /** host_transport_event_conn_closed */
    method HandleEnded(handle: nat, attempt: nat, a: Released) returns (ok: bool)
      requires Valid()
      modifies this`len, this`lost, ring, conns, opens, streams, dials
      ensures Valid() && Model() == OnEnded(old(Model()), handle, attempt, a) && ok == (lost == old(lost))
    {
      hide FailWaiting, CloseStreams, OnDialFailed;
      var c := ScanConn(handle);
      hide FindConn;
      if c == conns.Length {
        ok := HandleDialFailed(attempt);
      } else if conns[c].closed {
        ok := true;
      } else {
        ok := FailWaitingOpens(c);
        if ok { ok := CloseConnStreams(c, a); }
        if ok {
          SetConnSlot(c, conns[c].(closed := true, closePending := true));
          ok := EventPush(Event(ConnClosed, Some(c), None, None, None));
        }
      }
    }

    method HandleIncoming(handle: nat, stream: nat) returns (status: Status)
      requires Valid()
      modifies this`born, conns, streams, records
      ensures Valid() && (Model(), status) == OnIncoming(old(Model()), handle, stream)
    {
      hide StreamAlloc, StreamSlot;
      var c := ScanConn(handle);
      hide FindConn;
      if c == conns.Length { return ErrState; }
      if !conns[c].active || conns[c].closed { return Ok; }
      var i := TakeStream(c, stream, None);
      status := Ok;
    }

    method HandleStream(e: TransportEvent, a: Released) returns (ok: bool)
      requires Valid() && (e.Readable? || e.Writable? || e.Reset? || e.Finished?)
      modifies this`len, this`lost, ring, conns, opens, streams
      ensures Valid() && Model() == OnStream(old(Model()), e, a) && ok == (lost == old(lost))
    {
      hide FailNegotiation, FindStream, Matched, Ring.Contents;
      ok := true;
      var i := ScanStream(e.stream);
      if i < streams.Length {
        var s := streams[i];
        if s.state == StreamNegotiating && (e.Reset? || e.Finished?) {
          ok := Abandon(i, a);
        } else {
          SetStreamSlot(i,
            match e
            case Readable(_) => s.(readable := true)
            case Writable(_) => s.(writable := true)
            case Reset(_) => s.(reset := true)
            case _ => s.(closed := true));
        }
      }
    }

    /** host_transport_event_process */
    method HandleTransport(e: TransportEvent, a: Released) returns (ok: bool)
      requires Valid()
      modifies this`len, this`lost, this`born, ring, conns, opens, streams, dials, records
      ensures Valid() && Model() == OnTransport(old(Model()), e, a)
      ensures ok <==> lost == old(lost) && TransportStatus(old(Model()), e) == Ok
    {
      hide OnEstablished, OnEnded, OnDialFailed, OnIncoming, OnStream;
      var status := Ok;
      ok := true;
      match e {
        case Established(handle, attempt, userData) => status := HandleEstablished(handle, attempt, userData);
        case Ended(handle, attempt) => ok := HandleEnded(handle, attempt, a);
        case DialFailure(attempt) => ok := HandleDialFailed(attempt);
        case Incoming(handle, stream) => status := HandleIncoming(handle, stream);
        case Nothing =>
        case _ => ok := HandleStream(e, a);
      }
      ok := ok && status == Ok;
    }
  }
}
