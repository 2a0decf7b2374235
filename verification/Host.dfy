/**
  The host's fixed tables (connections, streams, stream opens, dials) and its queue of public events.
  Slot indices stand for pointers; the transport's answers and the protocol callbacks' answers are parameters.
*/
module Host {
  import opened Bytes

  datatype Conn = Conn(
    active: bool, handle: nat, streamCount: nat, openCount: nat,
    closed: bool, closePending: bool, localClose: bool)

  datatype OpenState = OpenFree | OpenWaiting | OpenNegotiating | OpenEvented
  /** `id` is history: which open attempt the slot holds. */
  datatype Open = Open(state: OpenState, conn: nat, userData: nat, id: nat)

  datatype StreamState = StreamFree | StreamNegotiating | StreamOpen
  /** `id` is history: which stream incarnation the slot holds. */
  datatype Stream = Stream(
    state: StreamState, conn: nat, handle: nat, outbound: bool, open: Option<nat>,
    readable: bool, writable: bool, reset: bool, closed: bool, id: nat)

  datatype DialState = DialFree | DialPending | DialEvented
  datatype Dial = Dial(state: DialState, attempt: nat, userData: nat)

  datatype EventKind = ConnEstablished | ConnClosed | DialFailed | StreamOpened | StreamOpenFailed | HostClosed
  /** `incarnation` is history: which stream a STREAM_OPENED announces. */
  datatype Event = Event(
    kind: EventKind, conn: Option<nat>, stream: Option<nat>, dial: Option<nat>, open: Option<nat>,
    incarnation: Option<nat> := None, userData: nat := 0)

  const NO_CONN := Conn(false, 0, 0, 0, false, false, false)
  const NO_OPEN := Open(OpenFree, 0, 0, 0)
  const NO_STREAM := Stream(StreamFree, 0, 0, false, None, false, false, false, false, 0)
  const NO_DIAL := Dial(DialFree, 0, 0)

  datatype Phase = Started | Closing | Closed

  datatype Callback = OnOpen | OnReadable | OnWritable | OnReset | OnClosed
  datatype Call = Call(stream: nat, callback: Callback, ok: bool)

  /**
    `driving` says that libp2p_host_drive is on the stack.
    The last five fields are history: events dropped because the ring was full, open attempts accepted so far,
    those reported back to the caller (in order), stream incarnations so far, protocol callbacks made so far.
  */
  datatype Host = Host(
    phase: Phase, driving: bool, maxStreams: nat, eventCapacity: nat,
    conns: seq<Conn>, streams: seq<Stream>, opens: seq<Open>, dials: seq<Dial>, events: seq<Event>,
    lost: nat, issued: nat, resolved: seq<nat>, born: nat, calls: seq<Call>)

  // -------------------------------------------------------- answers from outside

  datatype Released = ReleasedNow | ReleaseLater | ReleaseError
  datatype OpenAnswer = Opened(handle: nat) | OpenWouldBlock | OpenError
  datatype CallbackAnswer = NoHandler | Accepted | Refused

  datatype Status = Ok | InvalidArg | ErrState | Limit | NotFound | ErrClosed | ErrTransport | WouldBlock

  // -------------------------------------------------------------------- scans

  /** The first index whose element satisfies `p`, or the length. */
  function First<T>(s: seq<T>, p: T -> bool): (r: nat)
    ensures r <= |s| && (r < |s| ==> p(s[r]))
    ensures forall k :: 0 <= k < r ==> !p(s[k])
    decreases |s|
  {
    if s == [] then 0
    else if p(s[0]) then 0
    else
      var t := First(s[1..], p);
      assert forall k :: 1 <= k < t + 1 ==> s[k] == s[1..][k - 1];
      t + 1
  }

  function FindConn(h: Host, handle: nat): nat { First(h.conns, (c: Conn) => c.active && c.handle == handle) }
  function FreeConn(h: Host): nat { First(h.conns, (c: Conn) => !c.active) }
  function FindStream(h: Host, handle: nat): nat {
    First(h.streams, (s: Stream) => s.state != StreamFree && s.handle == handle)
  }
  function FreeStream(h: Host): nat { First(h.streams, (s: Stream) => s.state == StreamFree) }
  function FreeOpen(h: Host): nat { First(h.opens, (o: Open) => o.state == OpenFree) }
  function OwnerOf(h: Host, o: nat): nat {
    First(h.streams, (s: Stream) => s.state != StreamFree && s.open == Some(o))
  }
  function FindDial(h: Host, attempt: nat): nat {
    First(h.dials, (d: Dial) => d.state == DialPending && d.attempt == attempt)
  }
  function FreeDial(h: Host): nat { First(h.dials, (d: Dial) => d.state == DialFree) }

  predicate Usable(h: Host, c: nat) {
    c < |h.conns| && h.conns[c].active && !h.conns[c].closed
  }

  // ------------------------------------------------------------ table primitives

  function Push(h: Host, e: Event): Host {
    if |h.events| >= h.eventCapacity then h.(lost := h.lost + 1) else h.(events := h.events + [e])
  }

  predicate PushFits(h: Host) { |h.events| < h.eventCapacity }

  function Minus1(n: nat): nat { if n != 0 then n - 1 else 0 }

  /** host_conn_try_recycle: zero the slot once nothing refers to it and the transport lets go. */
  function TryRecycle(h: Host, c: nat, a: Released): Host {
    if c < |h.conns| && Recyclable(h.conns[c]) && a == ReleasedNow then h.(conns := h.conns[c := NO_CONN]) else h
  }

  predicate Recyclable(c: Conn) {
    c.active && c.closed && !c.closePending && c.streamCount == 0 && c.openCount == 0
  }

  function SetConn(h: Host, c: nat, v: Conn): Host {
    if c < |h.conns| then h.(conns := h.conns[c := v]) else h
  }

  function ConnAt(h: Host, c: nat): Conn {
    if c < |h.conns| then h.conns[c] else NO_CONN
  }

  predicate SameSizes(h: Host, r: Host) {
    |r.conns| == |h.conns| && |r.streams| == |h.streams| && |r.opens| == |h.opens|
  }

  function OpenRelease(h: Host, o: nat): (r: Host)
    ensures SameSizes(h, r)
  {
    if o < |h.opens| && h.opens[o].state != OpenFree then
      var c := h.opens[o].conn;
      var v := ConnAt(h, c);
      SetConn(h, c, v.(openCount := Minus1(v.openCount))).(opens := h.opens[o := NO_OPEN])
    else h
  }

  function StreamRelease(h: Host, i: nat, a: Released): (r: Host)
    ensures SameSizes(h, r)
  {
    if i < |h.streams| && h.streams[i].state != StreamFree then
      var s := h.streams[i];
      var v := ConnAt(h, s.conn);
      var h1 := SetConn(h, s.conn, v.(streamCount := Minus1(v.streamCount)));
      var h2 := if s.open.Some? && s.open.value < |h.opens| && h.opens[s.open.value].state != OpenEvented
                then OpenRelease(h1, s.open.value) else h1;
      TryRecycle(h2.(streams := h2.streams[i := NO_STREAM]), s.conn, a)
    else h
  }

  /** host_stream_alloc: the connection's own limit first, then the first free slot. */
  function StreamSlot(h: Host, c: nat): Option<nat>
    requires c < |h.conns|
  {
    if h.conns[c].streamCount >= h.maxStreams || FreeStream(h) == |h.streams| then None else Some(FreeStream(h))
  }

  function StreamAlloc(h: Host, i: nat, c: nat, handle: nat, open: Option<nat>): Host
    requires c < |h.conns| && i < |h.streams|
  {
    var v := h.conns[c];
    h.(conns := h.conns[c := v.(streamCount := v.streamCount + 1)],
       streams := h.streams[i := Stream(StreamNegotiating, c, handle, open.Some?, open, false, false, false, false,
         h.born)],
       born := h.born + 1)
  }

  /** An open attempt ends in STREAM_OPEN_FAILED; if even that cannot be queued its slot is given back. */
  function FailOpen(h: Host, o: nat): (r: Host)
    requires o < |h.opens|
    ensures SameSizes(h, r)
  {
    var e := Event(StreamOpenFailed, Some(h.opens[o].conn), None, None, Some(o), None, h.opens[o].userData);
    var h1 := h.(opens := h.opens[o := h.opens[o].(state := OpenEvented)]);
    if PushFits(h) then Push(h1, e) else OpenRelease(Push(h1, e), o)
  }

  /** host_stream_fail_negotiation */
  function FailNegotiation(h: Host, i: nat, a: Released): (r: Host)
    requires i < |h.streams|
    ensures SameSizes(h, r)
  {
    var s := h.streams[i];
    var h1 := if s.outbound && s.open.Some? && s.open.value < |h.opens| then FailOpen(h, s.open.value) else h;
    StreamRelease(h1, i, a)
  }

  /** host_stream_complete_negotiation, with the answer of the protocol's on_open */
  function CompleteNegotiation(h: Host, i: nat, onOpen: CallbackAnswer, a: Released): Host
    requires i < |h.streams|
  {
    var s := h.streams[i];
    var h1 := h.(calls := h.calls + [Call(s.id, OnOpen, onOpen != Refused)]);
    if onOpen == Refused then FailNegotiation(h1.(streams := h.streams[i := s.(state := StreamOpen)]), i, a)
    else
      var s1 := s.(state := StreamOpen, readable := true, writable := true);
      var h2 := h1.(streams := h.streams[i := s1]);
      if s.outbound && s.open.Some? && s.open.value < |h.opens| then
        var o := s.open.value;
        var e := Event(StreamOpened, Some(s.conn), Some(i), None, Some(o), Some(s.id), h.opens[o].userData);
        var h3 := h2.(opens := h.opens[o := h.opens[o].(state := OpenEvented)]);
        if PushFits(h) then Push(h3, e)
        else OpenRelease(Push(h3, e), o).(streams := h.streams[i := s1.(open := None)])
      else h2
  }

  // --------------------------------------------------------------- public calls

  function DialCall(h: Host, attempt: nat, userData: nat, ok: bool): Host {
    var d := FreeDial(h);
    if h.phase != Started || d == |h.dials| then h
    else h.(dials := h.dials[d := if ok then Dial(DialPending, attempt, userData) else NO_DIAL])
  }

  /** What libp2p_host_dial answers; a dial is refused before the transport is asked when no slot is free. */
  function DialStatus(h: Host, ok: bool): Status {
    if h.phase != Started then ErrClosed else if FreeDial(h) == |h.dials| then Limit else if ok then Ok
      else ErrTransport
  }

  /** libp2p_host_open_stream(_with_fallback); `known` says whether the protocol ids are registered. */
  function OpenStream(h: Host, c: nat, known: bool, userData: nat, a: OpenAnswer): (Host, Status) {
    if h.phase == Closed then (h, ErrClosed)
    else if c >= |h.conns| || !h.conns[c].active then (h, InvalidArg)
    else if h.phase == Closing || h.conns[c].closed then (h, ErrClosed)
    else if !known then (h, NotFound)
    else
      var o := FreeOpen(h);
      if o == |h.opens| then (h, Limit)
      else
        var v := h.conns[c];
        var h1 := h.(opens := h.opens[o := Open(OpenWaiting, c, userData, h.issued)],
                     conns := h.conns[c := v.(openCount := v.openCount + 1)]);
        TryOpen(h1, o, c, a)
  }

  /** The transport is asked for a stream for the waiting open o on connection c. */
  function TryOpen(h: Host, o: nat, c: nat, a: OpenAnswer): (Host, Status)
    requires o < |h.opens| && c < |h.conns| && h.opens[o].conn == c
  {
    match a
    case OpenWouldBlock => (h.(issued := h.issued + 1), Ok)
    case OpenError => (OpenRelease(h, o), ErrTransport)
    case Opened(handle) =>
      match StreamSlot(h, c)
      case None => (OpenRelease(h, o), Limit)
      case Some(i) => (StartStream(h, o, i, handle).(issued := h.issued + 1), Ok)
  }

  function StartStream(h: Host, o: nat, i: nat, handle: nat): Host
    requires o < |h.opens| && i < |h.streams| && h.opens[o].conn < |h.conns|
  {
    StreamAlloc(h, i, h.opens[o].conn, handle, Some(o)).(opens := h.opens[o := h.opens[o].(state := OpenNegotiating)])
  }

  /** libp2p_host_stream_open_cancel */
  function Cancel(h: Host, o: nat, userData: nat, a: Released): (Host, Status) {
    if h.phase == Closed then (h, ErrClosed)
    else if o >= |h.opens| then (h, InvalidArg)
    else if h.opens[o].state == OpenFree || h.opens[o].userData != userData then (h, NotFound)
    else if h.opens[o].state == OpenEvented then (h, ErrState)
    else
      var c := h.opens[o].conn;
      var h0 := h.(resolved := h.resolved + [h.opens[o].id]);
      if h.opens[o].state == OpenWaiting then (TryRecycle(OpenRelease(h0, o), c, a), Ok)
      else
        var i := OwnerOf(h, o);
        if i == |h.streams| then (h, ErrState)
        else
          var h1 := h0.(streams := h.streams[i := h.streams[i].(open := None)]);
          (TryRecycle(OpenRelease(StreamRelease(h1, i, a), o), c, a), Ok)
  }

  /** libp2p_host_next_event on a non-empty queue */
  function NextEvent(h: Host, a: Released): Host
    requires h.events != []
  {
    var e := h.events[0];
    var h1 := h.(events := h.events[1..]);
    var h2 := Undial(h1, e);
    var h3 := if e.open.Some? && e.open.value < |h.opens| then Resolve(h2, e, a) else h2;
    ReadClose(h3, e, a)
  }

  /** What host_conn_try_recycle answers: only a refusal of the transport is an error. */
  function RecycleStatus(h: Host, c: nat, a: Released): Status {
    if c < |h.conns| && Recyclable(h.conns[c]) && a == ReleaseError then ErrTransport else Ok
  }

  /** What libp2p_host_next_event answers when it has an event: what the connections it lets go of answer. */
  function NextEventStatus(h: Host, a: Released): Status
    requires h.events != []
  {
    var e := h.events[0];
    var h2 := Undial(h.(events := h.events[1..]), e);
    if e.open.Some? && e.open.value < |h.opens| && ResolveStatus(h2, e, a) != Ok then ResolveStatus(h2, e, a)
    else ReadCloseStatus(if e.open.Some? && e.open.value < |h.opens| then Resolve(h2, e, a) else h2, e, a)
  }

  function ResolveStatus(h: Host, e: Event, a: Released): Status
    requires e.open.Some? && e.open.value < |h.opens|
  {
    RecycleStatus(OpenRelease(h, e.open.value), h.opens[e.open.value].conn, a)
  }

  function ReadCloseStatus(h: Host, e: Event, a: Released): Status {
    if e.kind == ConnClosed && e.conn.Some? && e.conn.value < |h.conns| then
      var c := e.conn.value;
      RecycleStatus(h.(conns := h.conns[c := h.conns[c].(closePending := false)]), c, a)
    else Ok
  }

  function Undial(h: Host, e: Event): Host {
    if e.dial.Some? && e.dial.value < |h.dials|
    then h.(dials := h.dials[e.dial.value := h.dials[e.dial.value].(state := DialFree)]) else h
  }

  function ReadClose(h: Host, e: Event, a: Released): Host {
    if e.kind == ConnClosed && e.conn.Some? && e.conn.value < |h.conns| then
      var c := e.conn.value;
      TryRecycle(h.(conns := h.conns[c := h.conns[c].(closePending := false)]), c, a)
    else h
  }

  function Resolve(h: Host, e: Event, a: Released): (r: Host)
    requires e.open.Some? && e.open.value < |h.opens|
    ensures |r.conns| == |h.conns|
  {
    var o := e.open.value;
    var c := h.opens[o].conn;
    var h1 := if e.kind == StreamOpened && e.stream.Some? && e.stream.value < |h.streams|
                 && h.streams[e.stream.value].open == Some(o)
              then h.(streams := h.streams[e.stream.value := h.streams[e.stream.value].(open := None)]) else h;
    TryRecycle(OpenRelease(h1.(resolved := h.resolved + [h.opens[o].id]), o), c, a)
  }

  /** libp2p_host_close; the transport refuses the first conn_close at or after `failAt`. */
  function CloseHost(h: Host, failAt: nat): Host {
    if h.phase != Started then h
    else h.(phase := Closing,
            conns := seq(|h.conns|, k requires 0 <= k < |h.conns| =>
              if k < failAt && h.conns[k].active && !h.conns[k].closed then h.conns[k].(localClose := true)
                else h.conns[k]))
  }

  function CloseStatus(h: Host, failAt: nat): Status {
    if h.phase == Closed then ErrClosed
    else if h.phase == Started && exists k :: failAt <= k < |h.conns| && Usable(h, k) then ErrTransport
    else Ok
  }

  /** libp2p_host_conn_close, with the transport's answer */
  function CloseConnStatus(h: Host, c: nat, ok: bool): Status {
    if h.phase == Closed then ErrClosed
    else if c >= |h.conns| || !h.conns[c].active then InvalidArg
    else if h.conns[c].closed then ErrClosed
    else if ok then Ok else ErrTransport
  }

  function CloseConn(h: Host, c: nat, ok: bool): Host {
    if h.phase != Closed && Usable(h, c) && ok then h.(conns := h.conns[c := h.conns[c].(localClose := true)]) else h
  }

  // ----------------------------------------------------------- transport events

  datatype TransportEvent =
    | Established(handle: nat, attempt: nat, userData: nat)
    | Ended(handle: nat, attempt: nat)
    | DialFailure(attempt: nat)
    | Incoming(handle: nat, stream: nat)
    | Readable(stream: nat) | Writable(stream: nat) | Reset(stream: nat) | Finished(stream: nat)
    | Nothing

  /** An event for dial d with its user data, or for no dial with the transport's. */
  function EvOnDial(kind: EventKind, conn: Option<nat>, d: nat, h: Host, userData: nat): Event {
    if d < |h.dials| then Event(kind, conn, None, Some(d), None, None, h.dials[d].userData)
    else Event(kind, conn, None, None, None, None, userData)
  }

  function MarkDial(h: Host, d: nat): Host {
    if d < |h.dials| then h.(dials := h.dials[d := h.dials[d].(state := DialEvented)]) else h
  }

  function OnEstablished(h: Host, handle: nat, attempt: nat, userData: nat): (Host, Status) {
    var existing := FindConn(h, handle);
    var c := if existing < |h.conns| then existing else FreeConn(h);
    if c == |h.conns| then (h, Limit)
    else
      var h1 := if existing < |h.conns| then h
        else h.(conns := h.conns[c := NO_CONN.(active := true, handle := handle)]);
      var d := FindDial(h, attempt);
      (Push(MarkDial(h1, d), EvOnDial(ConnEstablished, Some(c), d, h, userData)), Ok)
  }

  function OnDialFailed(h: Host, attempt: nat): Host {
    var d := FindDial(h, attempt);
    if d < |h.dials| then Push(MarkDial(h, d), EvOnDial(DialFailed, None, d, h, 0)) else h
  }

  /** host_conn_fail_waiting_opens from slot o on; a full ring stops the scan. */
  function FailWaiting(h: Host, c: nat, o: nat): (r: Host)
    ensures |r.opens| == |h.opens| && |r.streams| == |h.streams| && |r.conns| == |h.conns|
    decreases |h.opens| - o
  {
    if o >= |h.opens| then h
    else if h.opens[o].state == OpenWaiting && h.opens[o].conn == c then
      if PushFits(h) then FailWaiting(FailOpen(h, o), c, o + 1) else FailOpen(h, o)
    else FailWaiting(h, c, o + 1)
  }

  /** host_conn_close_streams from slot i on; a full ring stops the scan. */
  function CloseStreams(h: Host, c: nat, i: nat, a: Released): (r: Host)
    ensures |r.opens| == |h.opens| && |r.streams| == |h.streams| && |r.conns| == |h.conns|
    decreases |h.streams| - i
  {
    if i >= |h.streams| then h
    else
      var h1 := CloseStream(h, c, i, a);
      if h1.lost == h.lost then CloseStreams(h1, c, i + 1, a) else h1
  }

  function CloseStream(h: Host, c: nat, i: nat, a: Released): (r: Host)
    requires i < |h.streams|
    ensures |r.opens| == |h.opens| && |r.streams| == |h.streams| && |r.conns| == |h.conns|
  {
    var s := h.streams[i];
    if s.state == StreamFree || s.conn != c then h
    else if s.state == StreamNegotiating then FailNegotiation(h, i, a)
    else h.(streams := h.streams[i := s.(closed := true)])
  }

  function OnEnded(h: Host, handle: nat, attempt: nat, a: Released): Host {
    var c := FindConn(h, handle);
    if c < |h.conns| then
      if h.conns[c].closed then h
      else
        var h0 := FailWaiting(h, c, 0);
        var h1 := if h0.lost == h.lost then CloseStreams(h0, c, 0, a) else h0;
        if h1.lost != h.lost then h1
        else
          var h2 := h1.(conns := h1.conns[c := h1.conns[c].(closed := true, closePending := true)]);
          Push(h2, Event(ConnClosed, Some(c), None, None, None))
    else OnDialFailed(h, attempt)
  }

  function OnIncoming(h: Host, handle: nat, stream: nat): (Host, Status) {
    var c := FindConn(h, handle);
    if c == |h.conns| then (h, ErrState)
    else if !Usable(h, c) then (h, Ok)
    else
      match StreamSlot(h, c)
      case None => (h, Ok)
      case Some(i) => (StreamAlloc(h, i, c, stream, None), Ok)
  }

  function OnStream(h: Host, e: TransportEvent, a: Released): Host
    requires e.Readable? || e.Writable? || e.Reset? || e.Finished?
  {
    var i := FindStream(h, e.stream);
    if i == |h.streams| then h
    else
      var s := h.streams[i];
      match e
      case Readable(_) => h.(streams := h.streams[i := s.(readable := true)])
      case Writable(_) => h.(streams := h.streams[i := s.(writable := true)])
      case Reset(_) =>
        if s.state == StreamNegotiating then FailNegotiation(h, i, a)
        else h.(streams := h.streams[i := s.(reset := true)])
      case Finished(_) =>
        if s.state == StreamNegotiating then FailNegotiation(h, i, a)
        else h.(streams := h.streams[i := s.(closed := true)])
  }

  function OnTransport(h: Host, e: TransportEvent, a: Released): Host {
    match e
    case Established(handle, attempt, userData) => OnEstablished(h, handle, attempt, userData).0
    case Ended(handle, attempt) => OnEnded(h, handle, attempt, a)
    case DialFailure(attempt) => OnDialFailed(h, attempt)
    case Incoming(handle, stream) => OnIncoming(h, handle, stream).0
    case Nothing => h
    case _ => OnStream(h, e, a)
  }

  /** What the handlers answer, apart from a full event ring: no slot for a connection, a stream on an unknown one. */
  function TransportStatus(h: Host, e: TransportEvent): Status {
    match e
    case Established(handle, attempt, userData) => OnEstablished(h, handle, attempt, userData).1
    case Incoming(handle, stream) => OnIncoming(h, handle, stream).1
    case _ => Ok
  }

  // -------------------------------------------------- the other steps of a drive

  /** host_stream_open_retry_one on slot o */
  function RetryOpen(h: Host, o: nat, a: OpenAnswer): Host
    requires o < |h.opens|
  {
    if h.opens[o].state != OpenWaiting then h
    else
      match a
      case OpenWouldBlock => h
      case OpenError => FailOpen(h, o)
      case Opened(handle) =>
        if h.opens[o].conn >= |h.conns| then h
        else
          match StreamSlot(h, h.opens[o].conn)
          case None => FailOpen(h, o)
          case Some(i) => StartStream(h, o, i, handle)
  }

  /** What one negotiation step of a stream comes to. */
  datatype Outcome = Unfinished | Agreed(onOpen: CallbackAnswer) | Failed

  function Negotiate(h: Host, i: nat, x: Outcome, a: Released): Host
    requires i < |h.streams|
  {
    if h.streams[i].state != StreamNegotiating then h
    else
      match x
      case Unfinished => h
      case Agreed(onOpen) => CompleteNegotiation(h, i, onOpen, a)
      case Failed => FailNegotiation(h, i, a)
  }

  /** host_protocol_event_one on slot i: at most one pending notification, reset before closed before data. */
  function Deliver(h: Host, i: nat, x: CallbackAnswer, a: Released): Host
    requires i < |h.streams|
  {
    var s := h.streams[i];
    if s.state != StreamOpen then h
    else if s.reset then CallEvent(h, i, s.(reset := false), OnReset, x, a)
    else if s.closed then StreamRelease(CallEvent(h, i, s.(closed := false), OnClosed, x, a), i, a)
    else if s.readable then CallEvent(h, i, s.(readable := false), OnReadable, x, a)
    else if s.writable then CallEvent(h, i, s.(writable := false), OnWritable, x, a)
    else h
  }

  function CallEvent(h: Host, i: nat, s: Stream, kind: Callback, x: CallbackAnswer, a: Released): Host
    requires i < |h.streams|
  {
    var h1 := h.(streams := h.streams[i := s]);
    if x == NoHandler then h1
    else
      var h2 := h1.(calls := h.calls + [Call(s.id, kind, x == Accepted)]);
      if x == Refused then StreamRelease(h2, i, a) else h2
  }

  predicate ActiveWork(h: Host) {
    || (exists k :: 0 <= k < |h.conns| && h.conns[k].active && !h.conns[k].closed)
    || (exists k :: 0 <= k < |h.streams| && h.streams[k].state != StreamFree)
    || (exists k :: 0 <= k < |h.dials| && h.dials[k].state == DialPending)
    || (exists k :: 0 <= k < |h.opens| && (h.opens[k].state == OpenWaiting || h.opens[k].state == OpenNegotiating))
  }

  function CompleteClose(h: Host): Host {
    if h.phase != Closing || ActiveWork(h) then h
    else
      var h1 := Push(h, Event(HostClosed, None, None, None, None));
      if PushFits(h) then h1.(phase := Closed) else h1
  }

  // ------------------------------------------------------------------------ runs

  datatype Label =
    | LDial(attempt: nat, userData: nat, ok: bool)
    | LOpen(conn: nat, known: bool, userData: nat, answer: OpenAnswer)
    | LCancel(open: nat, userData: nat, released: Released)
    | LNextEvent(released: Released)
    | LClose(failAt: nat)
    | LCloseConn(conn: nat, ok: bool)
    | LDrive
    | LTransport(event: TransportEvent, released: Released)
    | LRetry(open: nat, answer: OpenAnswer)
    | LNegotiate(stream: nat, outcome: Outcome, released: Released)
    | LDeliver(stream: nat, reaction: CallbackAnswer, released: Released)
    | LRecycle(conn: nat, released: Released)
    | LComplete
    | LReturn

  /** host_transport_event_capacity_available */
  predicate TransportGate(h: Host) {
    h.eventCapacity - |h.events| > |h.opens|
  }

  /** The transport's side of the contract: a handle is not established again while its closed slot is live. */
  predicate TransportObeys(h: Host, e: TransportEvent) {
    e.Established? ==> FindConn(h, e.handle) == |h.conns| || !h.conns[FindConn(h, e.handle)].closed
  }

  /**
    Public calls come between drives (callbacks do not re-enter the host). A drive starts unless the host is
    closed; its steps come behind the guards of its loop, which does not look at the phase again.
  */
  predicate Enabled(h: Host, l: Label) {
    match l
    case LDial(_, _, _) => !h.driving
    case LOpen(_, _, _, _) => !h.driving
    case LCancel(_, _, _) => !h.driving
    case LNextEvent(_) => !h.driving && h.events != []
    case LClose(_) => !h.driving
    case LCloseConn(_, _) => !h.driving
    case LDrive => !h.driving && h.phase != Closed
    case LTransport(e, _) => h.driving && TransportGate(h) && TransportObeys(h, e)
    case LRetry(o, _) => h.driving && PushFits(h) && o < |h.opens|
    case LNegotiate(i, _, _) => h.driving && PushFits(h) && i < |h.streams|
    case LDeliver(i, _, _) => h.driving && i < |h.streams|
    case LRecycle(c, _) => h.driving
    case LComplete => h.driving && PushFits(h)
    case LReturn => h.driving
  }

  function Apply(h: Host, l: Label): Host
    requires Enabled(h, l)
  {
    match l
    case LDial(attempt, userData, ok) => DialCall(h, attempt, userData, ok)
    case LOpen(c, known, userData, a) => OpenStream(h, c, known, userData, a).0
    case LCancel(o, userData, a) => Cancel(h, o, userData, a).0
    case LNextEvent(a) => NextEvent(h, a)
    case LClose(failAt) => CloseHost(h, failAt)
    case LCloseConn(c, ok) => CloseConn(h, c, ok)
    case LTransport(e, a) => OnTransport(h, e, a)
    case LRetry(o, a) => RetryOpen(h, o, a)
    case LNegotiate(i, x, a) => Negotiate(h, i, x, a)
    case LDeliver(i, x, a) => Deliver(h, i, x, a)
    case LRecycle(c, a) => TryRecycle(h, c, a)
    case LComplete => CompleteClose(h)
    case LDrive => h.(driving := true)
    case LReturn => h.(driving := false)
  }

  /** What host_config_validate and host_layout_compute demand of the limits. */
  datatype Limits = Limits(conns: nat, streamsPerConn: nat, dials: nat, opens: nat, events: nat)

  predicate ValidLimits(m: Limits) {
    m.conns > 0 && m.streamsPerConn > 0 && m.dials > 0 && m.opens > 0 && m.events > m.opens
  }

  function Fresh(m: Limits): Host {
    Host(Started, false, m.streamsPerConn, m.events,
         seq(m.conns, _ => NO_CONN), seq(m.conns * m.streamsPerConn, _ => NO_STREAM),
         seq(m.opens, _ => NO_OPEN), seq(m.dials, _ => NO_DIAL), [],
         0, 0, [], 0, [])
  }

  /** The state after a run from start-up, or None when some label was not enabled. */
  function Run(m: Limits, labels: seq<Label>): Option<Host>
    decreases |labels|
  {
    if labels == [] then Some(Fresh(m))
    else
      var k := |labels| - 1;
      match Run(m, labels[..k])
      case Some(h) => if Enabled(h, labels[k]) then Some(Apply(h, labels[k])) else None
      case None => None
  }
}
