/** Whatever bytes a peer sends, an RPC that is decoded keeps to the configured limits and to the caller's tables. */
module GossipLimits {
  import opened Bytes
  import opened GossipWire
  import opened Gossip
  import opened GossipDecode
  import Varint

  predicate MessageOk(m: Limits, x: MessageView) { |x.data.data| <= m.data && |x.topic.data| <= m.topic }

  predicate IdsOk(m: Limits, ids: seq<Span>) {
    forall i :: 0 <= i < |ids| ==> |ids[i].data| <= m.id
  }

  predicate PeersOk(m: Limits, peers: seq<PeerView>) {
    forall i :: 0 <= i < |peers| ==> |peers[i].record.data| <= m.record
  }

  predicate ControlOk(m: Limits, s: Storage, c: ControlView) {
    && |c.ihave| <= s.ihave && |c.iwant| <= s.iwant && |c.graft| <= s.graft && |c.prune| <= s.prune
    && |c.idontwant| <= s.idontwant && |c.ids| <= s.ids && |c.peers| <= s.peers
    && IdsOk(m, c.ids) && PeersOk(m, c.peers)
    && (forall i :: 0 <= i < |c.ihave| ==> TopicFits(m, |c.ihave[i].topic.data|) && c.ihave[i].ids.count <= m.ids)
    && (forall i :: 0 <= i < |c.iwant| ==> c.iwant[i].count <= m.ids)
    && (forall i :: 0 <= i < |c.graft| ==> TopicFits(m, |c.graft[i].data|))
    && (forall i :: 0 <= i < |c.prune| ==> TopicFits(m, |c.prune[i].topic.data|) && c.prune[i].peers.count <= m.px)
    && (forall i :: 0 <= i < |c.idontwant| ==> c.idontwant[i].count <= m.ids)
  }

  predicate RpcOk(m: Limits, s: Storage, r: RpcView) {
    && |r.subs| <= s.subs && |r.publish| <= s.publish
    && (forall i :: 0 <= i < |r.subs| ==> TopicFits(m, |r.subs[i].topic.data|) && r.subs[i].subscribe <= 1)
    && (forall i :: 0 <= i < |r.publish| ==> MessageOk(m, r.publish[i]) && r.publish[i].topic.data != [])
    && ControlOk(m, s, r.control) && ControlCounts(m, r.control)
  }

  lemma {:induction false} MessageFoldOk(m: Limits, items: seq<Item>, x: MessageView)
    requires MessageOk(m, x) && MessageFold(m, items, x).Ok?
    ensures MessageOk(m, MessageFold(m, items, x).value)
    decreases |items|
  {
    if items != [] {
      var i := items[0];
      MessageFoldOk(m, items[1..], if i.Text? then SetField(x, i.field, i.span) else x);
    }
  }

  lemma {:induction false} SubFoldOk(m: Limits, items: seq<Item>, x: SubView)
    requires |x.topic.data| <= m.topic && x.subscribe <= 1 && SubFold(m, items, x).Ok?
    ensures |SubFold(m, items, x).value.topic.data| <= m.topic && SubFold(m, items, x).value.subscribe <= 1
    decreases |items|
  {
    if items != [] {
      var y := match items[0]
        case Number(1, v) => x.(subscribe := Flag(v))
        case Text(2, p) => x.(topic := p)
        case _ => x;
      SubFoldOk(m, items[1..], y);
    }
  }

  lemma {:induction false} IdsFoldOk(m: Limits, cap: nat, field: nat, items: seq<Item>, ids: seq<Span>)
    requires IdsOk(m, ids) && |ids| <= cap && IdsFold(m, cap, field, items, ids).Ok?
    ensures IdsOk(m, IdsFold(m, cap, field, items, ids).value) && |IdsFold(m, cap, field, items, ids).value| <= cap
    decreases |items|
  {
    if items != [] {
      var i := items[0];
      IdsFoldOk(m, cap, field, items[1..], if i.Text? && i.field == field then ids + [i.span] else ids);
    }
  }

  lemma IdsDecodedOk(m: Limits, cap: nat, field: nat, p: Span, ids: seq<Span>)
    requires IdsOk(m, ids) && |ids| <= cap && DecodeIds(m, cap, field, p, ids).Ok?
    ensures IdsOk(m, DecodeIds(m, cap, field, p, ids).value) && |DecodeIds(m, cap, field, p, ids).value| <= cap
  {
    hide ItemsOf, IdsFold, IdsOk;
    IdsFoldOk(m, cap, field, ItemsOf(p.data, p.start).list, ids);
  }

  lemma {:induction false} PeerFoldOk(m: Limits, items: seq<Item>, x: PeerView)
    requires |x.record.data| <= m.record && PeerFold(m, items, x).Ok?
    ensures |PeerFold(m, items, x).value.record.data| <= m.record
    decreases |items|
  {
    if items != [] {
      var y := match items[0]
        case Text(1, p) => x.(id := p)
        case Text(2, p) => x.(record := p)
        case _ => x;
      PeerFoldOk(m, items[1..], y);
    }
  }

  lemma PeerDecodedOk(m: Limits, p: Span)
    requires DecodePeer(m, p).Ok?
    ensures |DecodePeer(m, p).value.record.data| <= m.record
  {
    hide ItemsOf, PeerFold;
    PeerFoldOk(m, ItemsOf(p.data, p.start).list, NO_PEER);
  }

  lemma {:induction false} PruneFoldOk(m: Limits, cap: nat, items: seq<Item>, x: PruneView, peers: seq<PeerView>)
    requires PeersOk(m, peers) && |peers| <= cap && PruneFold(m, cap, items, x, peers).Ok?
    ensures
      var (y, more) := PruneFold(m, cap, items, x, peers).value;
      PeersOk(m, more) && |more| <= cap
    decreases |items|
  {
    hide DecodePeer;
    if items != [] {
      var rest := items[1..];
      match items[0]
      case Text(1, p) => PruneFoldOk(m, cap, rest, x.(topic := p), peers);
      case Text(2, p) =>
        PeerDecodedOk(m, p);
        PruneFoldOk(m, cap, rest, x, peers + [DecodePeer(m, p).value]);
      case Number(3, v) => PruneFoldOk(m, cap, rest, x.(backoff := v), peers);
      case _ => PruneFoldOk(m, cap, rest, x, peers);
    }
  }

  lemma PruneDecodedOk(m: Limits, cap: nat, p: Span, peers: seq<PeerView>)
    requires PeersOk(m, peers) && |peers| <= cap && DecodePrune(m, cap, p, peers).Ok?
    ensures
      var (y, more) := DecodePrune(m, cap, p, peers).value;
      PeersOk(m, more) && |more| <= cap && TopicFits(m, |y.topic.data|) && y.peers.count <= m.px
  {
    hide ItemsOf, PruneFold, PeersOk;
    PruneFoldOk(m, cap, ItemsOf(p.data, p.start).list, PruneView(NO_SPAN, 0, Slice(0, 0)), peers);
  }

  lemma ControlStepOk(m: Limits, s: Storage, c: ControlView, i: Item)
    requires ControlOk(m, s, c) && ControlStep(m, s, c, i).Ok?
    ensures ControlOk(m, s, ControlStep(m, s, c, i).value)
  {
    hide DecodeIds, DecodeGraft, DecodePrune, IdsOk, PeersOk, TopicFold;
    if i.Text? && 1 <= i.field <= 5 && !Full(s, c, i.field) {
      if i.field == 1 {
        IdsDecodedOk(m, s.ids, 2, i.span, c.ids);
      } else if i.field == 2 || i.field == 5 {
        IdsDecodedOk(m, s.ids, 1, i.span, c.ids);
      } else if i.field == 3 {
        GraftOk(m, i.span);
      } else {
        PruneDecodedOk(m, s.peers, i.span, c.peers);
      }
    }
  }

  lemma GraftOk(m: Limits, p: Span)
    ensures DecodeGraft(m, p).Ok? ==> TopicFits(m, |DecodeGraft(m, p).value.data|)
  {
  }

  lemma {:induction false} ControlFoldOk(m: Limits, s: Storage, items: seq<Item>, c: ControlView)
    requires ControlOk(m, s, c) && ControlFold(m, s, items, c).Ok?
    ensures ControlOk(m, s, ControlFold(m, s, items, c).value)
    decreases |items|
  {
    hide ControlStep, ControlOk;
    if items != [] {
      ControlStepOk(m, s, c, items[0]);
      ControlFoldOk(m, s, items[1..], ControlStep(m, s, c, items[0]).value);
    }
  }

  lemma ControlDecodedOk(m: Limits, s: Storage, p: Span)
    requires DecodeControl(m, s, p).Ok?
    ensures ControlOk(m, s, DecodeControl(m, s, p).value) && ControlCounts(m, DecodeControl(m, s, p).value)
  {
    hide ItemsOf, ControlFold;
    ControlFoldOk(m, s, ItemsOf(p.data, p.start).list, NO_CONTROL_VIEW);
  }

  lemma RpcStepOk(m: Limits, s: Storage, r: RpcView, i: Item)
    requires RpcOk(m, s, r) && RpcStep(m, s, r, i).Ok?
    ensures RpcOk(m, s, RpcStep(m, s, r, i).value)
  {
    hide ItemsOf, DecodeControl, ControlOk, SubFold, MessageFold;
    if i.Text? {
      var it := ItemsOf(i.span.data, i.span.start);
      if i.field == 1 && SubFold(m, it.list, NO_SUB).Ok? { SubFoldOk(m, it.list, NO_SUB); }
      if i.field == 2 && MessageFold(m, it.list, NO_MESSAGE).Ok? { MessageFoldOk(m, it.list, NO_MESSAGE); }
      if i.field == 3 && DecodeControl(m, s, i.span).Ok? { ControlDecodedOk(m, s, i.span); }
    }
  }

  lemma {:induction false} RpcFoldOk(m: Limits, s: Storage, items: seq<Item>, r: RpcView)
    requires RpcOk(m, s, r) && RpcFold(m, s, items, r).Ok?
    ensures RpcOk(m, s, RpcFold(m, s, items, r).value)
    decreases |items|
  {
    hide RpcStep, RpcOk;
    if items != [] {
      RpcStepOk(m, s, r, items[0]);
      RpcFoldOk(m, s, items[1..], RpcStep(m, s, r, items[0]).value);
    }
  }

  /** Every accepted frame: topics, payloads, ids, records and counts within the limits, and the length exact. */
  lemma LimitsHold(v: Version, m: Limits, s: Storage, input: seq<byte>)
    requires DecodeFrame(v, m, s, input).Ok?
    ensures
      var r := DecodeFrame(v, m, s, input).value;
      && RpcOk(m, s, r) && |r.subs| <= m.subs && |r.publish| <= m.publish && v != Unknown && ValidLimits(m)
      && Varint.Decode(input).Ok? && Varint.Decode(input).value <= m.rpc
      && Varint.Decode(input).read + Varint.Decode(input).value == |input|
  {
    hide Varint.Decode, ItemsOf, RpcFold, RpcOk, ValidLimits;
    var n := Varint.Decode(input);
    NothingOk(m, s);
    RpcFoldOk(m, s, ItemsOf(input[n.read..], n.read).list, RpcView([], [], NO_CONTROL_VIEW));
  }

  lemma NothingOk(m: Limits, s: Storage)
    ensures RpcOk(m, s, RpcView([], [], NO_CONTROL_VIEW))
  {
  }
}
