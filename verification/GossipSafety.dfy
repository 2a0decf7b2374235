/** What holds of decoding arbitrary bytes: every span lies inside the input, no two entries share message ids. */
module GossipSafety {
  import opened Bytes
  import opened GossipWire
  import opened Gossip
  import opened GossipDecode
  import Varint

  // ------------------------------------------------------------------------------ spans

  predicate ItemsIn(input: seq<byte>, items: seq<Item>) {
    forall i :: 0 <= i < |items| ==> ItemWithin(input, items[i])
  }

  predicate SpansIn(input: seq<byte>, ps: seq<Span>) {
    forall i :: 0 <= i < |ps| ==> Within(input, ps[i])
  }

  predicate MessageIn(input: seq<byte>, x: MessageView) {
    && Within(input, x.from) && Within(input, x.data) && Within(input, x.seqno)
    && Within(input, x.topic) && Within(input, x.signature) && Within(input, x.key)
  }

  predicate PeerIn(input: seq<byte>, x: PeerView) { Within(input, x.id) && Within(input, x.record) }

  predicate ControlIn(input: seq<byte>, c: ControlView) {
    && (forall i :: 0 <= i < |c.ihave| ==> Within(input, c.ihave[i].topic))
    && SpansIn(input, c.graft)
    && (forall i :: 0 <= i < |c.prune| ==> Within(input, c.prune[i].topic))
    && SpansIn(input, c.ids)
    && (forall i :: 0 <= i < |c.peers| ==> PeerIn(input, c.peers[i]))
  }

  predicate RpcIn(input: seq<byte>, r: RpcView) {
    && (forall i :: 0 <= i < |r.subs| ==> Within(input, r.subs[i].topic))
    && (forall i :: 0 <= i < |r.publish| ==> MessageIn(input, r.publish[i]))
    && ControlIn(input, r.control)
  }

  /** The fields of a span inside the input are inside the input. */
  lemma FieldsIn(input: seq<byte>, p: Span)
    requires Within(input, p)
    ensures ItemsIn(input, ItemsOf(p.data, p.start).list) && Within(input, NO_SPAN)
  {
    ItemsWithin(p.data, p.start, input);
  }

  lemma {:induction false} MessageFoldIn(input: seq<byte>, m: Limits, items: seq<Item>, x: MessageView)
    requires ItemsIn(input, items) && MessageIn(input, x) && MessageFold(m, items, x).Ok?
    ensures MessageIn(input, MessageFold(m, items, x).value)
    decreases |items|
  {
    if items != [] {
      assert ItemWithin(input, items[0]);
      var i := items[0];
      hide Within;
      MessageFoldIn(input, m, items[1..], if i.Text? then SetField(x, i.field, i.span) else x);
    }
  }

  lemma {:induction false} SubFoldIn(input: seq<byte>, m: Limits, items: seq<Item>, x: SubView)
    requires ItemsIn(input, items) && Within(input, x.topic) && SubFold(m, items, x).Ok?
    ensures Within(input, SubFold(m, items, x).value.topic)
    decreases |items|
  {
    if items != [] {
      assert ItemWithin(input, items[0]);
      hide Within;
      match items[0]
      case Number(1, v) => SubFoldIn(input, m, items[1..], x.(subscribe := Flag(v)));
      case Text(2, p) => SubFoldIn(input, m, items[1..], x.(topic := p));
      case _ => SubFoldIn(input, m, items[1..], x);
    }
  }

  lemma {:induction false} TopicFoldIn(input: seq<byte>, items: seq<Item>, topic: Span)
    requires ItemsIn(input, items) && Within(input, topic)
    ensures Within(input, TopicFold(items, topic))
    decreases |items|
  {
    if items != [] {
      assert ItemWithin(input, items[0]);
      hide Within;
      TopicFoldIn(input, items[1..], if items[0].Text? && items[0].field == 1 then items[0].span else topic);
    }
  }

  lemma {:induction false} IdsFoldIn(input: seq<byte>, m: Limits, cap: nat, field: nat, items: seq<Item>,
                                     ids: seq<Span>)
    requires ItemsIn(input, items) && SpansIn(input, ids) && IdsFold(m, cap, field, items, ids).Ok?
    ensures SpansIn(input, IdsFold(m, cap, field, items, ids).value)
    decreases |items|
  {
    if items != [] {
      assert ItemWithin(input, items[0]);
      hide Within;
      var i := items[0];
      IdsFoldIn(input, m, cap, field, items[1..], if i.Text? && i.field == field then ids + [i.span] else ids);
    }
  }

  lemma {:induction false} PeerFoldIn(input: seq<byte>, m: Limits, items: seq<Item>, x: PeerView)
    requires ItemsIn(input, items) && PeerIn(input, x) && PeerFold(m, items, x).Ok?
    ensures PeerIn(input, PeerFold(m, items, x).value)
    decreases |items|
  {
    if items != [] {
      assert ItemWithin(input, items[0]);
      hide Within;
      match items[0]
      case Text(1, p) => PeerFoldIn(input, m, items[1..], x.(id := p));
      case Text(2, p) => PeerFoldIn(input, m, items[1..], x.(record := p));
      case _ => PeerFoldIn(input, m, items[1..], x);
    }
  }

  lemma PeerDecodedIn(input: seq<byte>, m: Limits, p: Span)
    requires Within(input, p) && DecodePeer(m, p).Ok?
    ensures PeerIn(input, DecodePeer(m, p).value)
  {
    hide ItemsOf, Within;
    FieldsIn(input, p);
    PeerFoldIn(input, m, ItemsOf(p.data, p.start).list, NO_PEER);
  }

  lemma {:induction false} PruneFoldIn(input: seq<byte>, m: Limits, cap: nat, items: seq<Item>, x: PruneView,
                                       peers: seq<PeerView>)
    requires ItemsIn(input, items) && Within(input, x.topic) && PruneFold(m, cap, items, x, peers).Ok?
    requires forall i :: 0 <= i < |peers| ==> PeerIn(input, peers[i])
    ensures Within(input, PruneFold(m, cap, items, x, peers).value.0.topic)
    ensures forall i :: 0 <= i < |PruneFold(m, cap, items, x, peers).value.1| ==>
      PeerIn(input, PruneFold(m, cap, items, x, peers).value.1[i])
    decreases |items|
  {
    if items != [] {
      assert ItemWithin(input, items[0]);
      match items[0]
      case Text(1, p) => PruneFoldIn(input, m, cap, items[1..], x.(topic := p), peers);
      case Text(2, p) =>
        PeerDecodedIn(input, m, p);
        hide DecodePeer, Within;
        PruneFoldIn(input, m, cap, items[1..], x, peers + [DecodePeer(m, p).value]);
      case Number(3, v) => PruneFoldIn(input, m, cap, items[1..], x.(backoff := v), peers);
      case _ => PruneFoldIn(input, m, cap, items[1..], x, peers);
    }
  }

  lemma IdsDecodedIn(input: seq<byte>, m: Limits, cap: nat, field: nat, p: Span, ids: seq<Span>)
    requires Within(input, p) && SpansIn(input, ids) && DecodeIds(m, cap, field, p, ids).Ok?
    ensures SpansIn(input, DecodeIds(m, cap, field, p, ids).value)
    ensures Within(input, TopicFold(ItemsOf(p.data, p.start).list, NO_SPAN))
  {
    hide ItemsOf, Within;
    FieldsIn(input, p);
    IdsFoldIn(input, m, cap, field, ItemsOf(p.data, p.start).list, ids);
    TopicFoldIn(input, ItemsOf(p.data, p.start).list, NO_SPAN);
  }

  lemma PruneDecodedIn(input: seq<byte>, m: Limits, cap: nat, p: Span, peers: seq<PeerView>)
    requires Within(input, p) && DecodePrune(m, cap, p, peers).Ok? && forall i :: 0 <= i < |peers| ==>
      PeerIn(input, peers[i])
    ensures Within(input, DecodePrune(m, cap, p, peers).value.0.topic)
    ensures forall i :: 0 <= i < |DecodePrune(m, cap, p, peers).value.1| ==>
      PeerIn(input, DecodePrune(m, cap, p, peers).value.1[i])
  {
    hide ItemsOf, Within;
    hide PruneFold, PeerIn;
    FieldsIn(input, p);
    PruneFoldIn(input, m, cap, ItemsOf(p.data, p.start).list, PruneView(NO_SPAN, 0, Slice(0, 0)), peers);
  }

  lemma GraftDecodedIn(input: seq<byte>, m: Limits, p: Span)
    requires Within(input, p) && DecodeGraft(m, p).Ok?
    ensures Within(input, DecodeGraft(m, p).value)
  {
    hide ItemsOf, Within;
    FieldsIn(input, p);
    TopicFoldIn(input, ItemsOf(p.data, p.start).list, NO_SPAN);
  }

  lemma ControlStepIn(input: seq<byte>, m: Limits, s: Storage, c: ControlView, i: Item)
    requires ItemWithin(input, i) && ControlIn(input, c) && ControlStep(m, s, c, i).Ok?
    ensures ControlIn(input, ControlStep(m, s, c, i).value)
  {
    hide Within, PeerIn, DecodeIds, DecodeGraft, DecodePrune, TopicFold;
    if i.Text? && 1 <= i.field <= 5 {
      if i.field == 1 { IdsDecodedIn(input, m, s.ids, 2, i.span, c.ids); }
      else if i.field == 3 { GraftDecodedIn(input, m, i.span); }
      else if i.field == 4 { PruneDecodedIn(input, m, s.peers, i.span, c.peers); }
      else { IdsDecodedIn(input, m, s.ids, 1, i.span, c.ids); }
    }
  }

  lemma {:induction false} ControlFoldIn(input: seq<byte>, m: Limits, s: Storage, items: seq<Item>, c: ControlView)
    requires ItemsIn(input, items) && ControlIn(input, c) && ControlFold(m, s, items, c).Ok?
    ensures ControlIn(input, ControlFold(m, s, items, c).value)
    decreases |items|
  {
    if items != [] {
      assert ItemWithin(input, items[0]);
      ControlStepIn(input, m, s, c, items[0]);
      hide ControlStep, ControlIn, ItemWithin;
      ControlFoldIn(input, m, s, items[1..], ControlStep(m, s, c, items[0]).value);
    }
  }

  lemma RpcStepIn(input: seq<byte>, m: Limits, s: Storage, r: RpcView, i: Item)
    requires ItemWithin(input, i) && RpcIn(input, r) && RpcStep(m, s, r, i).Ok?
    ensures RpcIn(input, RpcStep(m, s, r, i).value)
  {
    if i.Text? && 1 <= i.field <= 3 {
      FieldsIn(input, i.span);
      hide ItemsOf, Within;
      var items := ItemsOf(i.span.data, i.span.start).list;
      if i.field == 1 { SubFoldIn(input, m, items, NO_SUB); }
      else if i.field == 2 { MessageFoldIn(input, m, items, NO_MESSAGE); }
      else { ControlFoldIn(input, m, s, items, NO_CONTROL_VIEW); }
      hide MessageIn, ControlIn, SubFold, MessageFold, ControlFold;
    }
  }

  lemma {:induction false} RpcFoldIn(input: seq<byte>, m: Limits, s: Storage, items: seq<Item>, r: RpcView)
    requires ItemsIn(input, items) && RpcIn(input, r) && RpcFold(m, s, items, r).Ok?
    ensures RpcIn(input, RpcFold(m, s, items, r).value)
    decreases |items|
  {
    if items != [] {
      assert ItemWithin(input, items[0]);
      RpcStepIn(input, m, s, r, items[0]);
      hide RpcStep, RpcIn, ItemWithin;
      RpcFoldIn(input, m, s, items[1..], RpcStep(m, s, r, items[0]).value);
    }
  }

  /** Whatever bytes arrive, every span of a decoded RPC lies inside them. */
  lemma SpansInside(v: Version, m: Limits, s: Storage, input: seq<byte>)
    requires DecodeFrame(v, m, s, input).Ok?
    ensures RpcIn(input, DecodeFrame(v, m, s, input).value)
  {
    var n := Varint.Decode(input);
    Varint.Canonical(input);
    var p := Span(n.read, input[n.read..]);
    assert Within(input, p);
    FieldsIn(input, p);
    hide Varint.Decode, Varint.Encode, ItemsOf, RpcFold, Within;
    RpcFoldIn(input, m, s, ItemsOf(p.data, p.start).list, RpcView([], [], NO_CONTROL_VIEW));
    hide RpcIn;
  }

  // ------------------------------------------------------------------------- placement

  function ListLength(c: ControlView, field: nat): nat {
    if field == 1 then |c.ihave| else if field == 2 then |c.iwant| else if field == 5 then |c.idontwant| else 0
  }

  /** The message ids of entry `index` of control field `field` */
  function SliceAt(c: ControlView, field: nat, index: nat): Slice
    requires index < ListLength(c, field)
  {
    if field == 1 then c.ihave[index].ids else if field == 2 then c.iwant[index] else c.idontwant[index]
  }

  /** The history tells the truth about the three lists, and tells all of it, in order. */
  ghost predicate Told(c: ControlView) {
    && (forall k :: 0 <= k < |c.order| ==>
          c.order[k].index < ListLength(c, c.order[k].field)
            && SliceAt(c, c.order[k].field, c.order[k].index) == c.order[k].slice)
    && (forall field: nat, index: nat :: index < ListLength(c, field) ==> Mentioned(c.order, field, index))
    && (forall j, k :: 0 <= j < k < |c.order| && c.order[j].field == c.order[k].field ==>
          c.order[j].index < c.order[k].index)
  }

  ghost predicate Mentioned(order: seq<Placed>, field: nat, index: nat) {
    exists k :: 0 <= k < |order| && order[k].field == field && order[k].index == index
  }

  lemma ToldMore(c: ControlView, d: ControlView, field: nat, slice: Slice)
    requires Told(c) && (field == 1 || field == 2 || field == 5)
    requires d.order == c.order + [Placed(field, ListLength(c, field), slice)]
    requires ListLength(d, field) == ListLength(c, field) + 1 && SliceAt(d, field, ListLength(c, field)) == slice
    requires forall f: nat :: f != field ==> ListLength(d, f) == ListLength(c, f)
    requires forall f: nat, i: nat :: i < ListLength(c, f) && i < ListLength(d, f) ==>
      SliceAt(d, f, i) == SliceAt(c, f, i)
    ensures Told(d)
  {
    forall f: nat, i: nat | i < ListLength(d, f) ensures Mentioned(d.order, f, i) {
      if f == field && i == ListLength(c, field) {
        assert d.order[|c.order|].field == f && d.order[|c.order|].index == i;
      } else {
        assert Mentioned(c.order, f, i);
        var k :| 0 <= k < |c.order| && c.order[k].field == f && c.order[k].index == i;
        assert d.order[k].field == f && d.order[k].index == i;
      }
    }
  }

  lemma StepTold(m: Limits, s: Storage, c: ControlView, i: Item)
    requires Told(c) && ControlStep(m, s, c, i).Ok?
    ensures Told(ControlStep(m, s, c, i).value)
  {
    hide DecodeIHave, DecodeIWant, DecodeGraft, DecodePrune, Told;
    var d := ControlStep(m, s, c, i).value;
    if i.Text? && i.field == 1 { ToldMore(c, d, 1, d.ihave[|c.ihave|].ids); }
    else if i.Text? && i.field == 2 { ToldMore(c, d, 2, d.iwant[|c.iwant|]); }
    else if i.Text? && i.field == 5 { ToldMore(c, d, 5, d.idontwant[|c.idontwant|]); }
    else { ToldSame(c, d); }
  }

  lemma ToldSame(c: ControlView, d: ControlView)
    requires Told(c) && d.order == c.order && d.ihave == c.ihave && d.iwant == c.iwant && d.idontwant == c.idontwant
    ensures Told(d)
  {
  }

  lemma {:induction false} FoldTold(m: Limits, s: Storage, items: seq<Item>, c: ControlView)
    requires Told(c) && ControlFold(m, s, items, c).Ok?
    ensures Told(ControlFold(m, s, items, c).value)
    decreases |items|
  {
    if items != [] {
      StepTold(m, s, c, items[0]);
      hide ControlStep, Told;
      FoldTold(m, s, items[1..], ControlStep(m, s, c, items[0]).value);
    }
  }

  lemma SectionTold(m: Limits, s: Storage, p: Span)
    requires DecodeControl(m, s, p).Ok?
    ensures Told(DecodeControl(m, s, p).value)
  {
    hide ItemsOf, ControlFold;
    FoldTold(m, s, ItemsOf(p.data, p.start).list, NO_CONTROL_VIEW);
  }

  lemma EntryPlace(c: ControlView, f: nat, i: nat) returns (k: nat)
    requires Told(c) && Consecutive(c.order, |c.ids|) && i < ListLength(c, f)
    ensures k < |c.order| && c.order[k].field == f && c.order[k].index == i && c.order[k].slice == SliceAt(c, f, i)
    ensures SliceAt(c, f, i).start + SliceAt(c, f, i).count <= |c.ids|
  {
    hide Consecutive, ListLength, SliceAt;
    assert Mentioned(c.order, f, i);
    k :| k < |c.order| && c.order[k].field == f && c.order[k].index == i;
    LastEnds(c.order, |c.ids|, k);
  }

  /**
    In every decoded control section, two different IHAVE, IWANT or IDONTWANT entries hold disjoint message-id
    slices of the shared table, and within one list the slices are in wire order.
  */
  lemma EntriesApart(m: Limits, s: Storage, p: Span, f: nat, i: nat, g: nat, j: nat)
    requires DecodeControl(m, s, p).Ok?
    requires i < ListLength(DecodeControl(m, s, p).value, f)
    requires j < ListLength(DecodeControl(m, s, p).value, g) && (f != g || i < j)
    ensures
      var c := DecodeControl(m, s, p).value;
      var a, b := SliceAt(c, f, i), SliceAt(c, g, j);
      && a.start + a.count <= |c.ids| && b.start + b.count <= |c.ids|
      && (a.start + a.count <= b.start || b.start + b.count <= a.start)
      && (f == g ==> a.start + a.count <= b.start)
  {
    hide DecodeControl, Consecutive, ListLength, SliceAt, Mentioned;
    SlicesConsecutive(m, s, p);
    SectionTold(m, s, p);
    var c := DecodeControl(m, s, p).value;
    var k := EntryPlace(c, f, i);
    var l := EntryPlace(c, g, j);
    if k < l { SlicesDisjoint(c.order, |c.ids|, k, l); }
    if l < k { SlicesDisjoint(c.order, |c.ids|, l, k); }
  }
}
