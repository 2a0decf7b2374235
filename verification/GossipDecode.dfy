/** Decoding gossipsub RPCs: spans of the input, message ids in one shared table. */
module GossipDecode {
  import opened Bytes
  import opened GossipWire
  import opened Gossip
  import Varint

  // ------------------------------------------------------------------------------ views

  datatype SubView = SubView(subscribe: nat, topic: Span)
  datatype MessageView = MessageView(from: Span, data: Span, seqno: Span, topic: Span, signature: Span, key: Span)
  /** A run of entries of a shared table. */
  datatype Slice = Slice(start: nat, count: nat)
  /** History: entry `index` of control field `field` received this slice of the message-id table. */
  datatype Placed = Placed(field: nat, index: nat, slice: Slice)
  datatype IHaveView = IHaveView(topic: Span, ids: Slice)
  datatype PeerView = PeerView(id: Span, record: Span)
  datatype PruneView = PruneView(topic: Span, backoff: nat, peers: Slice)

  /**
    `ids` and `peers` are the shared tables up to the cursor. `order` is history: which entry got which
    message-id slice, in the order in which the entries stood on the wire.
  */
  datatype ControlView = ControlView(
    ihave: seq<IHaveView>, iwant: seq<Slice>, graft: seq<Span>, prune: seq<PruneView>, idontwant: seq<Slice>,
    ids: seq<Span>, peers: seq<PeerView>, order: seq<Placed>)
  datatype RpcView = RpcView(subs: seq<SubView>, publish: seq<MessageView>, control: ControlView)

  const NO_SUB := SubView(0, NO_SPAN)
  const NO_MESSAGE := MessageView(NO_SPAN, NO_SPAN, NO_SPAN, NO_SPAN, NO_SPAN, NO_SPAN)
  const NO_PEER := PeerView(NO_SPAN, NO_SPAN)
  const NO_CONTROL_VIEW := ControlView([], [], [], [], [], [], [], [])

  /** Capacities of the caller's decode arrays. */
  datatype Storage = Storage(
    subs: nat, publish: nat, ihave: nat, iwant: nat, graft: nat, prune: nat, idontwant: nat, ids: nat, peers: nat)

  function EndError(end: End): Option<Error> {
    match end
    case Clean => None
    case BadKey(e) => Some(e)
    case BadPayload(e, _, _) => Some(e)
  }

  // --------------------------------------------------------------------- small messages

  function SetField(x: MessageView, field: nat, p: Span): MessageView {
    if field == 1 then x.(from := p)
    else if field == 2 then x.(data := p)
    else if field == 3 then x.(seqno := p)
    else if field == 4 then x.(topic := p)
    else if field == 5 then x.(signature := p)
    else if field == 6 then x.(key := p)
    else x
  }

  function MessageFold(m: Limits, items: seq<Item>, x: MessageView): Result<MessageView> {
    if items == [] then Ok(x)
    else
      var i := items[0];
      if !i.Text? then MessageFold(m, items[1..], x)
      else if (i.field == 2 && |i.span.data| > m.data) || (i.field == 4 && |i.span.data| > m.topic) then Bad(Limit)
      else MessageFold(m, items[1..], SetField(x, i.field, i.span))
  }

  /** gossipsub_message_decode */
  function DecodeMessage(m: Limits, p: Span): Result<MessageView> {
    var it := ItemsOf(p.data, p.start);
    match MessageFold(m, it.list, NO_MESSAGE)
    case Bad(e) => Bad(e)
    case Ok(x) =>
      if EndError(it.end).Some? then Bad(EndError(it.end).value)
      else if x.topic.data == [] then Bad(Malformed)
      else Ok(x)
  }

  function SubFold(m: Limits, items: seq<Item>, x: SubView): Result<SubView> {
    if items == [] then Ok(x)
    else
      match items[0]
      case Number(1, v) => SubFold(m, items[1..], x.(subscribe := Flag(v)))
      case Text(2, p) => if |p.data| > m.topic then Bad(Limit) else SubFold(m, items[1..], x.(topic := p))
      case _ => SubFold(m, items[1..], x)
  }

  /** gossipsub_sub_decode */
  function DecodeSub(m: Limits, p: Span): Result<SubView> {
    var it := ItemsOf(p.data, p.start);
    match SubFold(m, it.list, NO_SUB)
    case Bad(e) => Bad(e)
    case Ok(x) =>
      if EndError(it.end).Some? then Bad(EndError(it.end).value)
      else if x.topic.data == [] then Bad(Malformed)
      else Ok(x)
  }

  /** The last length-delimited field 1 */
  function TopicFold(items: seq<Item>, topic: Span): Span {
    if items == [] then topic
    else if items[0].Text? && items[0].field == 1 then TopicFold(items[1..], items[0].span)
    else TopicFold(items[1..], topic)
  }

  /** gossipsub_graft_decode */
  function DecodeGraft(m: Limits, p: Span): Result<Span> {
    var it := ItemsOf(p.data, p.start);
    var topic := TopicFold(it.list, NO_SPAN);
    if EndError(it.end).Some? then Bad(EndError(it.end).value)
    else if !TopicFits(m, |topic.data|) then Bad(Limit)
    else Ok(topic)
  }

  // ---------------------------------------------------------------- the shared id table

  /** Message ids in the length-delimited field `field` go to the end of the table while it has room. */
  function IdsFold(m: Limits, cap: nat, field: nat, items: seq<Item>, ids: seq<Span>): Result<seq<Span>> {
    if items == [] then Ok(ids)
    else
      var i := items[0];
      if i.Text? && i.field == field then
        if |ids| >= cap || |i.span.data| > m.id then Bad(Limit) else IdsFold(m, cap, field, items[1..], ids + [i.span])
      else IdsFold(m, cap, field, items[1..], ids)
  }

  /** A full table is noticed before the id is read. */
  function IdsEnd(cap: nat, field: nat, end: End, ids: seq<Span>): Option<Error> {
    if end.BadPayload? && end.field == field && end.wire == LEN && |ids| >= cap then Some(Limit) else EndError(end)
  }

  /** One entry's ids, and the table behind them */
  function DecodeIds(m: Limits, cap: nat, field: nat, p: Span, ids: seq<Span>): Result<seq<Span>> {
    var it := ItemsOf(p.data, p.start);
    match IdsFold(m, cap, field, it.list, ids)
    case Bad(e) => Bad(e)
    case Ok(more) =>
      if IdsEnd(cap, field, it.end, more).Some? then Bad(IdsEnd(cap, field, it.end, more).value) else Ok(more)
  }

  function SliceOf(before: seq<Span>, after: seq<Span>): Slice {
    Slice(|before|, if |after| >= |before| then |after| - |before| else 0)
  }

  /** gossipsub_ihave_decode */
  function DecodeIHave(m: Limits, cap: nat, p: Span, ids: seq<Span>): Result<(IHaveView, seq<Span>)> {
    match DecodeIds(m, cap, 2, p, ids)
    case Bad(e) => Bad(e)
    case Ok(more) =>
      var topic := TopicFold(ItemsOf(p.data, p.start).list, NO_SPAN);
      var slice := SliceOf(ids, more);
      if !TopicFits(m, |topic.data|) || slice.count > m.ids then Bad(Limit) else Ok((IHaveView(topic, slice), more))
  }

  /** gossipsub_iwant_decode and gossipsub_idontwant_decode */
  function DecodeIWant(m: Limits, cap: nat, p: Span, ids: seq<Span>): Result<(Slice, seq<Span>)> {
    match DecodeIds(m, cap, 1, p, ids)
    case Bad(e) => Bad(e)
    case Ok(more) => if SliceOf(ids, more).count > m.ids then Bad(Limit) else Ok((SliceOf(ids, more), more))
  }

  // ------------------------------------------------------------------------------ PRUNE

  function PeerFold(m: Limits, items: seq<Item>, x: PeerView): Result<PeerView> {
    if items == [] then Ok(x)
    else
      match items[0]
      case Text(1, p) => PeerFold(m, items[1..], x.(id := p))
      case Text(2, p) => if |p.data| > m.record then Bad(Limit) else PeerFold(m, items[1..], x.(record := p))
      case _ => PeerFold(m, items[1..], x)
  }

  /** gossipsub_peer_info_decode */
  function DecodePeer(m: Limits, p: Span): Result<PeerView> {
    var it := ItemsOf(p.data, p.start);
    match PeerFold(m, it.list, NO_PEER)
    case Bad(e) => Bad(e)
    case Ok(x) => if EndError(it.end).Some? then Bad(EndError(it.end).value) else Ok(x)
  }

  function PruneFold(m: Limits, cap: nat, items: seq<Item>, x: PruneView, peers: seq<PeerView>)
    : Result<(PruneView, seq<PeerView>)>
  {
    if items == [] then Ok((x, peers))
    else
      match items[0]
      case Text(1, p) => PruneFold(m, cap, items[1..], x.(topic := p), peers)
      case Text(2, p) =>
        if |peers| >= cap then Bad(Limit)
        else if DecodePeer(m, p).Bad? then Bad(DecodePeer(m, p).error)
        else PruneFold(m, cap, items[1..], x, peers + [DecodePeer(m, p).value])
      case Number(3, v) => PruneFold(m, cap, items[1..], x.(backoff := v), peers)
      case _ => PruneFold(m, cap, items[1..], x, peers)
  }

  /** gossipsub_prune_decode */
  function DecodePrune(m: Limits, cap: nat, p: Span, peers: seq<PeerView>): Result<(PruneView, seq<PeerView>)> {
    var it := ItemsOf(p.data, p.start);
    match PruneFold(m, cap, it.list, PruneView(NO_SPAN, 0, Slice(0, 0)), peers)
    case Bad(e) => Bad(e)
    case Ok((x, more)) =>
      if it.end.BadPayload? && it.end.field == 2 && it.end.wire == LEN && |more| >= cap then Bad(Limit)
      else if EndError(it.end).Some? then Bad(EndError(it.end).value)
      else
        var count := if |more| >= |peers| then |more| - |peers| else 0;
        if !TopicFits(m, |x.topic.data|) || count > m.px then Bad(Limit)
        else Ok((x.(peers := Slice(if count == 0 then 0 else |peers|, count)), more))
  }

  // ---------------------------------------------------------------------------- control

  /** Is the array of this control field full? */
  predicate Full(s: Storage, c: ControlView, field: nat) {
    || (field == 1 && |c.ihave| >= s.ihave) || (field == 2 && |c.iwant| >= s.iwant)
    || (field == 3 && |c.graft| >= s.graft)
    || (field == 4 && |c.prune| >= s.prune) || (field == 5 && |c.idontwant| >= s.idontwant)
  }

  function ControlStep(m: Limits, s: Storage, c: ControlView, i: Item): Result<ControlView> {
    if !(1 <= i.field <= 5) then Ok(c)
    else if Full(s, c, i.field) then Bad(Limit)
    else if !i.Text? then Bad(InvalidArg)
    else if i.field == 1 then
      match DecodeIHave(m, s.ids, i.span, c.ids)
      case Bad(e) => Bad(e)
      case Ok((h, ids)) => Ok(c.(ihave := c.ihave + [h], ids := ids, order := c.order + [Placed(1, |c.ihave|, h.ids)]))
    else if i.field == 2 then
      match DecodeIWant(m, s.ids, i.span, c.ids)
      case Bad(e) => Bad(e)
      case Ok((x, ids)) => Ok(c.(iwant := c.iwant + [x], ids := ids, order := c.order + [Placed(2, |c.iwant|, x)]))
    else if i.field == 3 then
      match DecodeGraft(m, i.span)
      case Bad(e) => Bad(e)
      case Ok(t) => Ok(c.(graft := c.graft + [t]))
    else if i.field == 4 then
      match DecodePrune(m, s.peers, i.span, c.peers)
      case Bad(e) => Bad(e)
      case Ok((p, peers)) => Ok(c.(prune := c.prune + [p], peers := peers))
    else
      match DecodeIWant(m, s.ids, i.span, c.ids)
      case Bad(e) => Bad(e)
      case Ok((x, ids)) => Ok(c.(idontwant := c.idontwant + [x], ids := ids,
        order := c.order + [Placed(5, |c.idontwant|, x)]))
  }

  function ControlFold(m: Limits, s: Storage, items: seq<Item>, c: ControlView): Result<ControlView> {
    if items == [] then Ok(c)
    else
      match ControlStep(m, s, c, items[0])
      case Bad(e) => Bad(e)
      case Ok(d) => ControlFold(m, s, items[1..], d)
  }

  predicate ControlCounts(m: Limits, c: ControlView) {
    |c.ihave| <= m.ihave && |c.iwant| <= m.iwant && |c.graft| <= m.graft && |c.prune| <= m.prune
      && |c.idontwant| <= m.idontwant
  }

  /** gossipsub_control_decode: it starts from nothing, so a second control section replaces the first. */
  function DecodeControl(m: Limits, s: Storage, p: Span): Result<ControlView> {
    var it := ItemsOf(p.data, p.start);
    match ControlFold(m, s, it.list, NO_CONTROL_VIEW)
    case Bad(e) => Bad(e)
    case Ok(c) =>
      if EndError(it.end).Some? then Bad(EndError(it.end).value)
      else if !ControlCounts(m, c) then Bad(Limit)
      else Ok(c)
  }

  // -------------------------------------------------------------------------------- RPC

  function RpcStep(m: Limits, s: Storage, r: RpcView, i: Item): Result<RpcView> {
    if !(1 <= i.field <= 3) then Ok(r)
    else if (i.field == 1 && |r.subs| >= s.subs) || (i.field == 2 && |r.publish| >= s.publish) then Bad(Limit)
    else if !i.Text? then Bad(InvalidArg)
    else if i.field == 1 then
      match DecodeSub(m, i.span)
      case Bad(e) => Bad(e)
      case Ok(x) => Ok(r.(subs := r.subs + [x]))
    else if i.field == 2 then
      match DecodeMessage(m, i.span)
      case Bad(e) => Bad(e)
      case Ok(x) => Ok(r.(publish := r.publish + [x]))
    else
      match DecodeControl(m, s, i.span)
      case Bad(e) => Bad(e)
      case Ok(c) => Ok(r.(control := c))
  }

  function RpcFold(m: Limits, s: Storage, items: seq<Item>, r: RpcView): Result<RpcView> {
    if items == [] then Ok(r)
    else
      match RpcStep(m, s, r, items[0])
      case Bad(e) => Bad(e)
      case Ok(q) => RpcFold(m, s, items[1..], q)
  }

  /** libp2p_gossipsub_rpc_body_decode */
  function DecodeBody(v: Version, m: Limits, s: Storage, p: Span): Result<RpcView> {
    if v == Unknown then Bad(UnsupportedVersion)
    else if !ValidLimits(m) then Bad(Limit)
    else if |p.data| > m.rpc then Bad(Limit)
    else
      var it := ItemsOf(p.data, p.start);
      match RpcFold(m, s, it.list, RpcView([], [], NO_CONTROL_VIEW))
      case Bad(e) => Bad(e)
      case Ok(r) =>
        if EndError(it.end).Some? then Bad(EndError(it.end).value)
        else if |r.subs| > m.subs || |r.publish| > m.publish then Bad(Limit)
        else Ok(r)
  }

  /** libp2p_gossipsub_rpc_frame_decode */
  function DecodeFrame(v: Version, m: Limits, s: Storage, input: seq<byte>): Result<RpcView> {
    if v == Unknown then Bad(UnsupportedVersion)
    else if !ValidLimits(m) then Bad(Limit)
    else
      var n := Varint.Decode(input);
      if !n.Ok? then Bad(VarintError(n))
      else if n.value > m.rpc || n.read + n.value > |input| then Bad(Truncated)
      else if n.read + n.value != |input| then Bad(Malformed)
      else DecodeBody(v, m, s, Span(n.read, input[n.read..]))
  }

  // ---------------------------------------------------------- slices of the shared table

  /** The slices follow each other without gap or overlap and end at n. */
  ghost predicate Consecutive(order: seq<Placed>, n: nat) {
    if order == [] then n == 0
    else
      var last := order[|order| - 1].slice;
      last.start + last.count == n && Consecutive(order[..|order| - 1], last.start)
  }

  lemma {:induction false} IdsFoldGrows(m: Limits, cap: nat, field: nat, items: seq<Item>, ids: seq<Span>)
    requires IdsFold(m, cap, field, items, ids).Ok?
    ensures ids <= IdsFold(m, cap, field, items, ids).value
    ensures |ids| <= cap ==> |IdsFold(m, cap, field, items, ids).value| <= cap
    decreases |items|
  {
    if items != [] {
      var i := items[0];
      IdsFoldGrows(m, cap, field, items[1..], if i.Text? && i.field == field then ids + [i.span] else ids);
    }
  }

  lemma ConsecutiveMore(order: seq<Placed>, field: nat, index: nat, before: seq<Span>, after: seq<Span>)
    requires Consecutive(order, |before|) && before <= after
    ensures Consecutive(order + [Placed(field, index, SliceOf(before, after))], |after|)
  {
    assert (order + [Placed(field, index, SliceOf(before, after))])[..|order|] == order;
  }

  /** What one control entry does to the shared table. */
  lemma StepConsecutive(m: Limits, s: Storage, c: ControlView, i: Item)
    requires ControlStep(m, s, c, i).Ok? && Consecutive(c.order, |c.ids|) && |c.ids| <= s.ids
    ensures
      var d := ControlStep(m, s, c, i).value;
      Consecutive(d.order, |d.ids|) && |d.ids| <= s.ids && c.ids <= d.ids
  {
    hide IdsFold, TopicFold, ItemsOf, Consecutive, DecodeGraft, DecodePrune;
    if i.Text? && (i.field == 1 || i.field == 2 || i.field == 5) {
      var field := if i.field == 1 then 2 else 1;
      var it := ItemsOf(i.span.data, i.span.start);
      var r := IdsFold(m, s.ids, field, it.list, c.ids);
      if r.Ok? {
        IdsFoldGrows(m, s.ids, field, it.list, c.ids);
        var index := if i.field == 1 then |c.ihave| else if i.field == 2 then |c.iwant| else |c.idontwant|;
        ConsecutiveMore(c.order, i.field, index, c.ids, r.value);
      }
    }
  }

  lemma {:induction false} FoldConsecutive(m: Limits, s: Storage, items: seq<Item>, c: ControlView)
    requires ControlFold(m, s, items, c).Ok? && Consecutive(c.order, |c.ids|) && |c.ids| <= s.ids
    ensures
      var d := ControlFold(m, s, items, c).value;
      Consecutive(d.order, |d.ids|) && |d.ids| <= s.ids && c.ids <= d.ids
    decreases |items|
  {
    if items != [] {
      StepConsecutive(m, s, c, items[0]);
      hide ControlStep, Consecutive;
      FoldConsecutive(m, s, items[1..], ControlStep(m, s, c, items[0]).value);
    }
  }

  /** In every decoded control section the message-id slices are consecutive, disjoint and in wire order. */
  lemma SlicesConsecutive(m: Limits, s: Storage, p: Span)
    requires DecodeControl(m, s, p).Ok?
    ensures Consecutive(DecodeControl(m, s, p).value.order, |DecodeControl(m, s, p).value.ids|)
    ensures |DecodeControl(m, s, p).value.ids| <= s.ids
  {
    hide ItemsOf, ControlFold;
    var it := ItemsOf(p.data, p.start);
    FoldConsecutive(m, s, it.list, NO_CONTROL_VIEW);
  }

  /** So no two entries share a place in the table. */
  lemma {:induction false} SlicesDisjoint(order: seq<Placed>, n: nat, j: nat, k: nat)
    requires Consecutive(order, n) && j < k < |order|
    ensures order[j].slice.start + order[j].slice.count <= order[k].slice.start
    ensures order[k].slice.start + order[k].slice.count <= n
    decreases |order|
  {
    var last := order[|order| - 1].slice;
    var front := order[..|order| - 1];
    if k < |front| { SlicesDisjoint(front, last.start, j, k); LastEnds(front, last.start, k); }
    else { LastEnds(front, last.start, j); }
  }

  lemma {:induction false} LastEnds(order: seq<Placed>, n: nat, j: nat)
    requires Consecutive(order, n) && j < |order|
    ensures order[j].slice.start + order[j].slice.count <= n
    decreases |order|
  {
    var last := order[|order| - 1].slice;
    if j < |order| - 1 { LastEnds(order[..|order| - 1], last.start, j); }
  }
}
