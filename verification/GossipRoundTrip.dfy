/** frame_decode(frame_encode(rpc)) gives the RPC back. */
module GossipRoundTrip {
  import opened Bytes
  import opened GossipWire
  import opened Gossip
  import opened GossipDecode
  import Varint

  // -------------------------------------------------------------------- runs of one field

  /** Where the elements of Fields(field, list) lie when they start at base. */
  function SpansOf(field: nat, list: seq<seq<byte>>, base: nat): (ps: seq<Span>)
    ensures |ps| == |list| && forall i :: 0 <= i < |list| ==> ps[i].data == list[i]
  {
    if list == [] then []
    else
      var n := base + |LenField(field, list[0])|;
      [Span(if n >= |list[0]| then n - |list[0]| else 0, list[0])] + SpansOf(field, list[1..], n)
  }

  function TextItems(field: nat, ps: seq<Span>): (r: seq<Item>)
    ensures |r| == |ps| && forall i :: 0 <= i < |ps| ==> r[i] == Text(field, ps[i])
  {
    seq(|ps|, i requires 0 <= i < |ps| => Text(field, ps[i]))
  }

  predicate Short(list: seq<seq<byte>>) {
    forall i :: 0 <= i < |list| ==> |list[i]| < Varint.LIMIT
  }

  lemma RunCons(field: nat, x: seq<byte>, xs: seq<seq<byte>>, base: nat)
    ensures Fields(field, [x] + xs) == LenField(field, x) + Fields(field, xs)
    ensures
      var n := base + |LenField(field, x)|;
      n >= |x| && SpansOf(field, [x] + xs, base) == [Span(n - |x|, x)] + SpansOf(field, xs, n)
  {
    hide Varint.Encode;
    assert ([x] + xs)[1..] == xs;
  }

  lemma NoItems(field: nat)
    ensures TextItems(field, []) == []
  {
  }

  lemma LenFieldLong(field: nat, data: seq<byte>)
    ensures |LenField(field, data)| >= |data| + 2
  {
    hide Varint.Encode;
  }

  lemma ItemsCons(field: nat, p: Span, ps: seq<Span>)
    ensures TextItems(field, [p] + ps) == [Text(field, p)] + TextItems(field, ps)
  {
  }

  lemma {:induction false} FieldsItems(field: nat, list: seq<seq<byte>>, rest: seq<byte>, base: nat)
    requires field < 0x1000_0000 && Short(list)
    ensures
      var after := ItemsOf(rest, base + |Fields(field, list)|);
      ItemsOf(Fields(field, list) + rest, base) ==
        Items(TextItems(field, SpansOf(field, list, base)) + after.list, after.end)
    decreases |list|
  {
    hide ItemsOf, LenField, Fields, SpansOf, TextItems;
    if list == [] {
      NoFields(field, rest, base);
    } else {
      var x, xs := list[0], list[1..];
      assert list == [x] + xs;
      RunCons(field, x, xs, base);
      var head, tail := LenField(field, x), Fields(field, xs);
      var n := base + |head|;
      FieldsItems(field, xs, rest, n);
      LenFieldFirst(field, x, tail + rest, base);
      ItemsCons(field, Span(n - |x|, x), SpansOf(field, xs, n));
      AssocBytes(head, tail, rest);
      AssocItems(Text(field, Span(n - |x|, x)), TextItems(field, SpansOf(field, xs, n)),
        ItemsOf(rest, n + |tail|).list);
    }
  }

  lemma AssocBytes(a: seq<byte>, b: seq<byte>, c: seq<byte>)
    ensures (a + b) + c == a + (b + c)
  {
  }

  lemma AssocItems(i: Item, a: seq<Item>, b: seq<Item>)
    ensures [i] + (a + b) == ([i] + a) + b
  {
  }

  lemma NoFields(field: nat, rest: seq<byte>, base: nat)
    ensures Fields(field, []) == [] && Fields(field, []) + rest == rest
    ensures TextItems(field, SpansOf(field, [], base)) == []
    ensures TextItems(field, SpansOf(field, [], base)) + ItemsOf(rest, base).list == ItemsOf(rest, base).list
  {
    hide ItemsOf;
    assert TextItems(field, SpansOf(field, [], base)) == [];
  }

  /** The run alone. */
  lemma FieldsOnly(field: nat, list: seq<seq<byte>>, base: nat)
    requires field < 0x1000_0000 && Short(list)
    ensures ItemsOf(Fields(field, list), base) == Items(TextItems(field, SpansOf(field, list, base)), Clean)
  {
    hide ItemsOf, TextItems, Fields, SpansOf;
    FieldsItems(field, list, [], base);
    NothingItems(base + |Fields(field, list)|);
    assert Fields(field, list) + [] == Fields(field, list);
    var ts := TextItems(field, SpansOf(field, list, base));
    assert ts + [] == ts;
  }

  lemma NothingItems(base: nat)
    ensures ItemsOf([], base) == Items([], Clean)
  {
  }

  // ---------------------------------------------------------------------------- messages

  function MessageOf(x: MessageView): Message {
    Message(x.from.data, x.data.data, x.seqno.data, x.topic.data, x.signature.data, x.key.data)
  }

  function PutData(x: Message, field: nat, data: seq<byte>): Message {
    if field == 1 then x.(from := data)
    else if field == 2 then x.(data := data)
    else if field == 3 then x.(seqno := data)
    else if field == 4 then x.(topic := data)
    else if field == 5 then x.(signature := data)
    else x.(key := data)
  }

  lemma FoldText(m: Limits, field: nat, p: Span, after: seq<Item>, x: MessageView)
    requires (field == 2 ==> |p.data| <= m.data) && (field == 4 ==> |p.data| <= m.topic)
    ensures MessageFold(m, [Text(field, p)] + after, x) == MessageFold(m, after, SetField(x, field, p))
  {
    assert ([Text(field, p)] + after)[1..] == after;
  }

  /** One optional field of a message: skipped when empty, else it sets the field. */
  lemma OptStep(m: Limits, field: nat, data: seq<byte>, rest: seq<byte>, base: nat, x: MessageView)
    returns (b: nat, y: MessageView)
    requires 1 <= field <= 6 && |data| < Varint.LIMIT
    requires (field == 2 ==> |data| <= m.data) && (field == 4 ==> |data| <= m.topic)
    requires PutData(MessageOf(x), field, []) == MessageOf(x)
    ensures MessageFold(m, ItemsOf(OptField(field, data) + rest, base).list, x) ==
      MessageFold(m, ItemsOf(rest, b).list, y)
    ensures ItemsOf(OptField(field, data) + rest, base).end == ItemsOf(rest, b).end
    ensures MessageOf(y) == PutData(MessageOf(x), field, data)
  {
    hide ItemsOf, LenField, MessageFold;
    LenFieldLong(field, data);
    if data == [] {
      b, y := base, x;
      assert OptField(field, data) + rest == rest;
    } else {
      b := base + |LenField(field, data)|;
      LenFieldFirst(field, data, rest, base);
      var p := Span(b - |data|, data);
      y := SetField(x, field, p);
      FoldText(m, field, p, ItemsOf(rest, b).list, x);
    }
  }

  lemma MessageSplits(x: Message)
    requires x.topic != []
    ensures EncodeMessage(x) ==
      OptField(1, x.from) + (OptField(2, x.data) + (OptField(3, x.seqno) + (OptField(4, x.topic) +
      (OptField(5, x.signature) + (OptField(6, x.key) + [])))))
    ensures |x.from| <= |EncodeMessage(x)| && |x.data| <= |EncodeMessage(x)| && |x.seqno| <= |EncodeMessage(x)|
    ensures |x.topic| <= |EncodeMessage(x)| && |x.signature| <= |EncodeMessage(x)| && |x.key| <= |EncodeMessage(x)|
  {
    OptFieldSize(1, x.from);
    OptFieldSize(2, x.data);
    OptFieldSize(3, x.seqno);
    OptFieldSize(5, x.signature);
    OptFieldSize(6, x.key);
    assert OptField(4, x.topic) == LenField(4, x.topic);
    assert OptField(6, x.key) + [] == OptField(6, x.key);
    hide OptField, Varint.Encode;
  }

  lemma MessageReads(m: Limits, x: Message, base: nat) returns (y: MessageView)
    requires EntryOk(m, MessageEntry(x)) && |EncodeMessage(x)| < Varint.LIMIT
    ensures DecodeMessage(m, Span(base, EncodeMessage(x))) == Ok(y) && MessageOf(y) == x
  {
    hide OptField, EncodeMessage, ItemsOf, MessageFold;
    MessageSplits(x);
    var r6 := OptField(6, x.key) + [];
    var r5 := OptField(5, x.signature) + r6;
    var r4 := OptField(4, x.topic) + r5;
    var r3 := OptField(3, x.seqno) + r4;
    var r2 := OptField(2, x.data) + r3;
    var b1, y1 := OptStep(m, 1, x.from, r2, base, NO_MESSAGE);
    var b2, y2 := OptStep(m, 2, x.data, r3, b1, y1);
    var b3, y3 := OptStep(m, 3, x.seqno, r4, b2, y2);
    var b4, y4 := OptStep(m, 4, x.topic, r5, b3, y3);
    var b5, y5 := OptStep(m, 5, x.signature, r6, b4, y4);
    var b6, y6 := OptStep(m, 6, x.key, [], b5, y5);
    NothingItems(b6);
    FoldNothing(m, y6);
    y := y6;
  }

  lemma FoldNothing(m: Limits, y: MessageView)
    ensures MessageFold(m, [], y) == Ok(y)
  {
  }

  // ----------------------------------------------------------------------- subscriptions

  lemma SubReads(m: Limits, x: Sub, base: nat) returns (y: SubView)
    requires EntryOk(m, SubEntry(x)) && |EncodeSub(x)| < Varint.LIMIT
    ensures DecodeSub(m, Span(base, EncodeSub(x))) == Ok(y)
    ensures y.subscribe == Flag(x.subscribe) && y.topic.data == x.topic
  {
    hide ItemsOf, VarintField, LenField, SubSize;
    var v := Flag(x.subscribe);
    var a, t := VarintField(1, v), LenField(2, x.topic);
    LenFieldLong(2, x.topic);
    assert t + [] == t;
    var b := base + |a|;
    VarintFieldFirst(1, v, t + [], base);
    LenFieldFirst(2, x.topic, [], b);
    var p := Span(b + |t| - |x.topic|, x.topic);
    NothingItems(b + |t|);
    y := SubView(v, p);
    TopicOk(m, x);
    SubFolds(m, v, p);
  }

  lemma TopicOk(m: Limits, x: Sub)
    requires SubSize(m, x).Ok?
    ensures TopicFits(m, |x.topic|)
  {
  }

  lemma SubFolds(m: Limits, v: nat, p: Span)
    requires |p.data| <= m.topic
    ensures SubFold(m, [Number(1, v)] + ([Text(2, p)] + []), NO_SUB) == Ok(SubView(Flag(v), p))
  {
    var items := [Number(1, v)] + ([Text(2, p)] + []);
    assert items[1..] == [Text(2, p)] && [Text(2, p)][1..] == [];
    assert SubFold(m, [], SubView(Flag(v), p)) == Ok(SubView(Flag(v), p));
    assert SubFold(m, [Text(2, p)], SubView(Flag(v), NO_SPAN)) == Ok(SubView(Flag(v), p));
  }

  // ------------------------------------------------------------------------- message ids

  lemma IdsCons(m: Limits, cap: nat, field: nat, p: Span, rest: seq<Item>, ids: seq<Span>)
    requires |ids| < cap && |p.data| <= m.id
    ensures IdsFold(m, cap, field, [Text(field, p)] + rest, ids) == IdsFold(m, cap, field, rest, ids + [p])
  {
    assert ([Text(field, p)] + rest)[1..] == rest;
  }

  lemma IdsNone(m: Limits, cap: nat, field: nat, ids: seq<Span>)
    ensures IdsFold(m, cap, field, [], ids) == Ok(ids)
  {
  }

  lemma {:induction false} IdsFolds(m: Limits, cap: nat, field: nat, ps: seq<Span>, ids: seq<Span>)
    requires |ids| + |ps| <= cap && forall i :: 0 <= i < |ps| ==> |ps[i].data| <= m.id
    ensures IdsFold(m, cap, field, TextItems(field, ps), ids) == Ok(ids + ps)
    decreases |ps|
  {
    hide IdsFold, TextItems;
    if ps == [] {
      NoItems(field);
      assert ids + ps == ids;
      IdsNone(m, cap, field, ids);
    } else {
      var p, rest := ps[0], ps[1..];
      assert ps == [p] + rest;
      ItemsCons(field, p, rest);
      IdsCons(m, cap, field, p, TextItems(field, rest), ids);
      IdsFolds(m, cap, field, rest, ids + [p]);
      assert (ids + [p]) + rest == ids + ps;
    }
  }

  lemma {:induction false} EachIdFits(m: Limits, field: nat, ids: Ids, total: nat)
    requires EachIdSize(m, field, ids, total).Ok?
    ensures forall i :: 0 <= i < |ids| ==> 0 < |ids[i]| <= m.id
    decreases |ids|
  {
    if ids != [] { EachIdFits(m, field, ids[1..], total + LenFieldSize(field, |ids[0]|)); }
  }

  lemma {:induction false} ElementsShort(field: nat, list: seq<seq<byte>>)
    requires |Fields(field, list)| < Varint.LIMIT
    ensures Short(list)
    decreases |list|
  {
    if list != [] {
      LenFieldLong(field, list[0]);
      hide LenField;
      ElementsShort(field, list[1..]);
    }
  }

  /** The slice of the table holds exactly these ids. */
  predicate SliceShows(ids: seq<Span>, s: Slice, xs: Ids) {
    && s.count == |xs| && s.start + s.count <= |ids|
    && forall k :: 0 <= k < |xs| ==> ids[s.start + k].data == xs[k]
  }

  lemma SliceStays(ids: seq<Span>, more: seq<Span>, s: Slice, xs: Ids)
    requires SliceShows(ids, s, xs) && ids <= more
    ensures SliceShows(more, s, xs)
  {
  }

  lemma NewSliceShows(ids: seq<Span>, ps: seq<Span>, xs: Ids)
    requires |ps| == |xs| && forall i :: 0 <= i < |xs| ==> ps[i].data == xs[i]
    ensures SliceShows(ids + ps, SliceOf(ids, ids + ps), xs)
  {
  }

  /** IWANT and IDONTWANT */
  lemma IWantReads(m: Limits, cap: nat, xs: Ids, base: nat, ids: seq<Span>) returns (s: Slice, more: seq<Span>)
    requires EntryOk(m, IdsEntry(xs)) && |EncodeIds(xs)| < Varint.LIMIT && |ids| + |xs| <= cap
    ensures DecodeIWant(m, cap, Span(base, EncodeIds(xs)), ids) == Ok((s, more))
    ensures ids <= more && |more| == |ids| + |xs| && SliceShows(more, s, xs)
  {
    hide ItemsOf, TextItems, Fields, SpansOf;
    hide IdsFold, SliceShows;
    ElementsShort(1, xs);
    EachIdFits(m, 1, xs, 0);
    FieldsOnly(1, xs, base);
    var ps := SpansOf(1, xs, base);
    IdsFolds(m, cap, 1, ps, ids);
    more := ids + ps;
    s := SliceOf(ids, more);
    NewSliceShows(ids, ps, xs);
  }

  lemma {:induction false} TopicKept(ps: seq<Span>, topic: Span)
    ensures TopicFold(TextItems(2, ps), topic) == topic
    decreases |ps|
  {
    if ps != [] {
      ItemsCons(2, ps[0], ps[1..]);
      assert ps == [ps[0]] + ps[1..];
      TopicKept(ps[1..], topic);
      assert TextItems(2, ps)[1..] == TextItems(2, ps[1..]);
    }
  }

  lemma IHaveFolds(m: Limits, cap: nat, t: Span, ps: seq<Span>, ids: seq<Span>)
    requires |ids| + |ps| <= cap && forall i :: 0 <= i < |ps| ==> |ps[i].data| <= m.id
    ensures IdsFold(m, cap, 2, [Text(1, t)] + TextItems(2, ps), ids) == Ok(ids + ps)
    ensures TopicFold([Text(1, t)] + TextItems(2, ps), NO_SPAN) == t
  {
    hide TextItems;
    IdsFolds(m, cap, 2, ps, ids);
    TopicKept(ps, t);
    var items := [Text(1, t)] + TextItems(2, ps);
    assert items[1..] == TextItems(2, ps);
  }

  /** The fields of an encoded IHAVE */
  lemma IHaveItems(h: IHave, base: nat) returns (t: Span, ps: seq<Span>)
    requires |EncodeIHave(h)| < Varint.LIMIT
    ensures ItemsOf(EncodeIHave(h), base) == Items([Text(1, t)] + TextItems(2, ps), Clean)
    ensures t.data == h.topic && |ps| == |h.ids| && forall i :: 0 <= i < |ps| ==> ps[i].data == h.ids[i]
  {
    hide ItemsOf, TextItems, Fields, SpansOf, LenField;
    var a := LenField(1, h.topic);
    LenFieldLong(1, h.topic);
    var b := base + |a|;
    ElementsShort(2, h.ids);
    LenFieldFirst(1, h.topic, Fields(2, h.ids), base);
    FieldsOnly(2, h.ids, b);
    t, ps := Span(b - |h.topic|, h.topic), SpansOf(2, h.ids, b);
  }

  lemma IHaveLimits(m: Limits, h: IHave)
    requires IHaveSize(m, h).Ok?
    ensures TopicFits(m, |h.topic|) && |h.ids| <= m.ids && forall i :: 0 <= i < |h.ids| ==> |h.ids[i]| <= m.id
  {
    hide EachIdSize;
    EachIdFits(m, 2, h.ids, LenFieldSize(1, |h.topic|));
  }

  lemma IHaveReads(m: Limits, cap: nat, h: IHave, base: nat, ids: seq<Span>) returns (v: IHaveView, more: seq<Span>)
    requires EntryOk(m, IHaveEntry(h)) && |EncodeIHave(h)| < Varint.LIMIT && |ids| + |h.ids| <= cap
    ensures DecodeIHave(m, cap, Span(base, EncodeIHave(h)), ids) == Ok((v, more))
    ensures ids <= more && |more| == |ids| + |h.ids| && v.topic.data == h.topic && SliceShows(more, v.ids, h.ids)
  {
    hide ItemsOf, TextItems, EncodeIHave, IHaveSize, IdsFold, TopicFold;
    hide SliceShows;
    IHaveLimits(m, h);
    var t, ps := IHaveItems(h, base);
    IHaveFolds(m, cap, t, ps, ids);
    more := ids + ps;
    v := IHaveView(t, SliceOf(ids, more));
    NewSliceShows(ids, ps, h.ids);
  }

  // ---------------------------------------------------------------------- GRAFT and PRUNE

  lemma OneTopic(t: Span)
    ensures TopicFold([Text(1, t)], NO_SPAN) == t
  {
    assert [Text(1, t)][1..] == [];
    assert TopicFold([], t) == t;
  }

  lemma GraftReads(m: Limits, topic: seq<byte>, base: nat) returns (t: Span)
    requires EntryOk(m, GraftEntry(topic)) && |EncodeGraft(topic)| < Varint.LIMIT
    ensures DecodeGraft(m, Span(base, EncodeGraft(topic))) == Ok(t) && t.data == topic
  {
    hide LenField, ItemsOf;
    hide TopicFold;
    var a := LenField(1, topic);
    LenFieldLong(1, topic);
    assert a + [] == a;
    LenFieldFirst(1, topic, [], base);
    NothingItems(base + |a|);
    t := Span(base + |a| - |topic|, topic);
    assert [Text(1, t)] + [] == [Text(1, t)];
    OneTopic(t);
  }

  const NO_PRUNE := PruneView(NO_SPAN, 0, Slice(0, 0))

  lemma PruneFolds(m: Limits, cap: nat, t: Span, backoff: nat, peers: seq<PeerView>)
    ensures PruneFold(m, cap, [Text(1, t)], NO_PRUNE, peers) == Ok((NO_PRUNE.(topic := t), peers))
    ensures PruneFold(m, cap, [Text(1, t), Number(3, backoff)], NO_PRUNE, peers) ==
      Ok((NO_PRUNE.(topic := t, backoff := backoff), peers))
  {
    var x := NO_PRUNE.(topic := t);
    assert [Text(1, t)][1..] == [];
    assert PruneFold(m, cap, [], x, peers) == Ok((x, peers));
    var items := [Text(1, t), Number(3, backoff)];
    assert items[1..] == [Number(3, backoff)] && [Number(3, backoff)][1..] == [];
    assert PruneFold(m, cap, [], x.(backoff := backoff), peers) == Ok((x.(backoff := backoff), peers));
    assert PruneFold(m, cap, [Number(3, backoff)], x, peers) == Ok((x.(backoff := backoff), peers));
  }

  /** The fields of an encoded PRUNE: its backoff only when it is not zero */
  lemma PruneItems(p: Prune, base: nat) returns (t: Span)
    requires |EncodePrune(p)| < Varint.LIMIT && p.backoff < Varint.LIMIT
    ensures t.data == p.topic
    ensures ItemsOf(EncodePrune(p), base) ==
      Items(if p.backoff != 0 then [Text(1, t), Number(3, p.backoff)] else [Text(1, t)], Clean)
  {
    hide LenField, VarintField, ItemsOf;
    var a := LenField(1, p.topic);
    LenFieldLong(1, p.topic);
    var b := base + |a|;
    t := Span(b - |p.topic|, p.topic);
    if p.backoff != 0 {
      var c := VarintField(3, p.backoff);
      LenFieldFirst(1, p.topic, c + [], base);
      VarintFieldFirst(3, p.backoff, [], b);
      NothingItems(b + |c|);
      assert c + [] == c;
      assert [Text(1, t)] + ([Number(3, p.backoff)] + []) == [Text(1, t), Number(3, p.backoff)];
    } else {
      LenFieldFirst(1, p.topic, [], base);
      NothingItems(b);
      assert [Text(1, t)] + [] == [Text(1, t)];
    }
  }

  lemma PruneReads(m: Limits, cap: nat, p: Prune, base: nat, peers: seq<PeerView>) returns (v: PruneView)
    requires EntryOk(m, PruneEntry(p)) && |EncodePrune(p)| < Varint.LIMIT && p.backoff < Varint.LIMIT
    ensures DecodePrune(m, cap, Span(base, EncodePrune(p)), peers) == Ok((v, peers))
    ensures v.topic.data == p.topic && v.backoff == p.backoff && v.peers.count == 0
  {
    hide PruneFold, ItemsOf, EncodePrune;
    var t := PruneItems(p, base);
    PruneFolds(m, cap, t, p.backoff, peers);
    v := PruneView(t, p.backoff, Slice(0, 0));
  }

  // ------------------------------------------------------------------------------ control

  lemma ControlCons(m: Limits, s: Storage, i: Item, rest: seq<Item>, c: ControlView)
    requires ControlStep(m, s, c, i).Ok?
    ensures ControlFold(m, s, [i] + rest, c) == ControlFold(m, s, rest, ControlStep(m, s, c, i).value)
  {
    hide ControlStep;
    assert ([i] + rest)[1..] == rest;
  }

  lemma ControlNothing(m: Limits, s: Storage, c: ControlView)
    ensures ControlFold(m, s, [], c) == Ok(c)
  {
  }

  /** Entries of this kind belong into this control field. */
  predicate Belongs(field: nat, e: Entry) {
    match e
    case IHaveEntry(_) => field == 1
    case IdsEntry(_) => field == 2 || field == 5
    case GraftEntry(_) => field == 3
    case PruneEntry(p) => field == 4 && p.backoff < Varint.LIMIT
    case _ => false
  }

  /** How many entries of a control field were decoded. */
  function Listed(c: ControlView, field: nat): nat {
    if field == 1 then |c.ihave| else if field == 2 then |c.iwant| else if field == 3 then |c.graft|
    else if field == 4 then |c.prune| else |c.idontwant|
  }

  function RoomFor(s: Storage, field: nat): nat {
    if field == 1 then s.ihave else if field == 2 then s.iwant else if field == 3 then s.graft
    else if field == 4 then s.prune else s.idontwant
  }

  /** Entry i of the control field shows e. */
  predicate Shows(c: ControlView, field: nat, i: nat, e: Entry)
    requires i < Listed(c, field)
  {
    match e
    case IHaveEntry(h) => field == 1 && c.ihave[i].topic.data == h.topic && SliceShows(c.ids, c.ihave[i].ids, h.ids)
    case IdsEntry(xs) =>
      (field == 2 && SliceShows(c.ids, c.iwant[i], xs)) || (field == 5 && SliceShows(c.ids, c.idontwant[i], xs))
    case GraftEntry(t) => field == 3 && c.graft[i].data == t
    case PruneEntry(p) =>
      field == 4 && c.prune[i].topic.data == p.topic && c.prune[i].backoff == p.backoff && c.prune[i].peers.count == 0
    case _ => false
  }

  /** The control field shows exactly these entries, in order. */
  predicate AllShow(c: ControlView, field: nat, es: seq<Entry>) {
    Listed(c, field) == |es| && forall i :: 0 <= i < |es| ==> Shows(c, field, i, es[i])
  }

  function IdCount(e: Entry): nat {
    match e
    case IHaveEntry(h) => |h.ids|
    case IdsEntry(xs) => |xs|
    case _ => 0
  }

  function IdsOf(es: seq<Entry>): nat { if es == [] then 0 else IdCount(es[0]) + IdsOf(es[1..]) }

  /** c and d differ in the arrays of one field and in what was appended to the id table. */
  predicate Elsewhere(c: ControlView, d: ControlView, field: nat) {
    && (field == 1 || d.ihave == c.ihave) && (field == 2 || d.iwant == c.iwant) && (field == 3 || d.graft == c.graft)
    && (field == 4 || d.prune == c.prune) && (field == 5 || d.idontwant == c.idontwant) && d.peers == c.peers
    && c.ids <= d.ids
  }

  lemma ElsewhereThen(c: ControlView, e: ControlView, d: ControlView, field: nat)
    requires Elsewhere(c, e, field) && Elsewhere(e, d, field)
    ensures Elsewhere(c, d, field)
  {
  }

  /** What another field shows stays, though the id table grows. */
  lemma ShowsStays(c: ControlView, d: ControlView, field: nat, other: nat, es: seq<Entry>)
    requires Elsewhere(c, d, field) && other != field && 1 <= field <= 5 && 1 <= other <= 5 && AllShow(c, other, es)
    ensures AllShow(d, other, es)
  {
    forall i | 0 <= i < |es| ensures Shows(d, other, i, es[i]) {
      assert Shows(c, other, i, es[i]);
      match es[i]
      case IHaveEntry(h) => SliceStays(c.ids, d.ids, c.ihave[i].ids, h.ids);
      case IdsEntry(xs) => SliceStays(c.ids, d.ids, if other == 2 then c.iwant[i] else c.idontwant[i], xs);
      case _ =>
    }
  }

  /** One entry more: the field shows the ones before it and the new one. */
  predicate OneMore(c: ControlView, d: ControlView, field: nat, e: Entry) {
    && Elsewhere(c, d, field) && Listed(d, field) == Listed(c, field) + 1 && |d.ids| == |c.ids| + IdCount(e)
    && Shows(d, field, Listed(c, field), e)
    && (field == 1 ==> c.ihave <= d.ihave) && (field == 2 ==> c.iwant <= d.iwant) && (field == 3 ==> c.graft <= d.graft)
    && (field == 4 ==> c.prune <= d.prune) && (field == 5 ==> c.idontwant <= d.idontwant)
  }

  lemma OneMoreShows(c: ControlView, d: ControlView, field: nat, e: Entry, done: seq<Entry>)
    requires OneMore(c, d, field, e) && 1 <= field <= 5 && AllShow(c, field, done)
    ensures AllShow(d, field, done + [e])
  {
    forall i | 0 <= i < |done| ensures Shows(d, field, i, done[i]) {
      assert Shows(c, field, i, done[i]);
      match done[i]
      case IHaveEntry(h) => SliceStays(c.ids, d.ids, c.ihave[i].ids, h.ids);
      case IdsEntry(xs) => SliceStays(c.ids, d.ids, if field == 2 then c.iwant[i] else c.idontwant[i], xs);
      case _ =>
    }
  }

  lemma EntryStep(m: Limits, s: Storage, field: nat, p: Span, e: Entry, c: ControlView) returns (d: ControlView)
    requires Belongs(field, e) && EntryOk(m, e) && p.data == EncodeEntry(e) && |p.data| < Varint.LIMIT
    requires Listed(c, field) < RoomFor(s, field) && |c.ids| + IdCount(e) <= s.ids
    ensures ControlStep(m, s, c, Text(field, p)) == Ok(d) && OneMore(c, d, field, e)
  {
    hide ControlStep, OneMore, EntryOk;
    match e
    case IHaveEntry(h) => d := IHaveStep(m, s, p, h, c);
    case IdsEntry(xs) => d := IdsStep(m, s, field, p, xs, c);
    case GraftEntry(t) => d := GraftStep(m, s, p, t, c);
    case PruneEntry(x) => d := PruneStep(m, s, p, x, c);
    case _ =>
  }

  lemma IHaveStep(m: Limits, s: Storage, p: Span, h: IHave, c: ControlView) returns (d: ControlView)
    requires EntryOk(m, IHaveEntry(h)) && p.data == EncodeIHave(h) && |p.data| < Varint.LIMIT
    requires |c.ihave| < s.ihave && |c.ids| + |h.ids| <= s.ids
    ensures ControlStep(m, s, c, Text(1, p)) == Ok(d) && OneMore(c, d, 1, IHaveEntry(h))
  {
    hide DecodeIHave, EncodeIHave, SliceShows, EntryOk;
    var v, more := IHaveReads(m, s.ids, h, p.start, c.ids);
    assert p == Span(p.start, EncodeIHave(h));
    d := ControlStep(m, s, c, Text(1, p)).value;
  }

  lemma IdsStep(m: Limits, s: Storage, field: nat, p: Span, xs: Ids, c: ControlView) returns (d: ControlView)
    requires (field == 2 || field == 5) && EntryOk(m, IdsEntry(xs))
    requires p.data == EncodeIds(xs) && |p.data| < Varint.LIMIT
    requires Listed(c, field) < RoomFor(s, field) && |c.ids| + |xs| <= s.ids
    ensures ControlStep(m, s, c, Text(field, p)) == Ok(d) && OneMore(c, d, field, IdsEntry(xs))
  {
    hide DecodeIWant, EncodeIds, SliceShows, EntryOk;
    var v, more := IWantReads(m, s.ids, xs, p.start, c.ids);
    assert p == Span(p.start, EncodeIds(xs));
    d := ControlStep(m, s, c, Text(field, p)).value;
  }

  lemma GraftStep(m: Limits, s: Storage, p: Span, t: seq<byte>, c: ControlView) returns (d: ControlView)
    requires EntryOk(m, GraftEntry(t)) && p.data == EncodeGraft(t) && |p.data| < Varint.LIMIT && |c.graft| < s.graft
    ensures ControlStep(m, s, c, Text(3, p)) == Ok(d) && OneMore(c, d, 3, GraftEntry(t))
  {
    hide DecodeGraft, EncodeGraft, EntryOk;
    var v := GraftReads(m, t, p.start);
    assert p == Span(p.start, EncodeGraft(t));
    d := ControlStep(m, s, c, Text(3, p)).value;
  }

  lemma PruneStep(m: Limits, s: Storage, p: Span, x: Prune, c: ControlView) returns (d: ControlView)
    requires EntryOk(m, PruneEntry(x)) && x.backoff < Varint.LIMIT
    requires p.data == EncodePrune(x) && |p.data| < Varint.LIMIT
    requires |c.prune| < s.prune
    ensures ControlStep(m, s, c, Text(4, p)) == Ok(d) && OneMore(c, d, 4, PruneEntry(x))
  {
    hide DecodePrune, EncodePrune, EntryOk;
    var v := PruneReads(m, s.peers, x, p.start, c.peers);
    assert p == Span(p.start, EncodePrune(x));
    d := ControlStep(m, s, c, Text(4, p)).value;
  }

  predicate AllShort(list: seq<seq<byte>>, ps: seq<Span>) {
    |ps| == |list| && forall i :: 0 <= i < |list| ==> ps[i].data == list[i] && |list[i]| < Varint.LIMIT
  }

  lemma EntryTail(es: seq<Entry>, ps: seq<Span>)
    requires es != [] && AllShort(EntryBytes(es), ps)
    ensures ps != [] && AllShort(EntryBytes(es[1..]), ps[1..])
    ensures ps[0].data == EncodeEntry(es[0]) && |ps[0].data| < Varint.LIMIT
  {
    hide EncodeEntry;
    assert EntryBytes(es[1..]) == EntryBytes(es)[1..];
  }

  lemma NoEntries(c: ControlView, field: nat, ps: seq<Span>)
    requires AllShort(EntryBytes([]), ps)
    ensures Elsewhere(c, c, field) && TextItems(field, ps) == []
  {
  }

  lemma OneMoreElsewhere(c: ControlView, d: ControlView, field: nat, e: Entry)
    requires OneMore(c, d, field, e)
    ensures Elsewhere(c, d, field) && Listed(d, field) == Listed(c, field) + 1 && |d.ids| == |c.ids| + IdCount(e)
  {
  }

  predicate AllBelong(field: nat, es: seq<Entry>) { forall i :: 0 <= i < |es| ==> Belongs(field, es[i]) }

  /** A run of entries of one control field, in front of whatever else there is. */
  lemma {:induction false} EntriesRead(m: Limits, s: Storage, field: nat, ps: seq<Span>, es: seq<Entry>,
                                       rest: seq<Item>, c: ControlView, done: seq<Entry>)
    returns (d: ControlView)
    requires 1 <= field <= 5 && AllShort(EntryBytes(es), ps)
    requires AllOk(m, es) && AllBelong(field, es) && AllShow(c, field, done)
    requires Listed(c, field) + |es| <= RoomFor(s, field) && |c.ids| + IdsOf(es) <= s.ids
    ensures ControlFold(m, s, TextItems(field, ps) + rest, c) == ControlFold(m, s, rest, d)
    ensures Elsewhere(c, d, field) && |d.ids| == |c.ids| + IdsOf(es) && AllShow(d, field, done + es)
    decreases |es|
  {
    hide ControlFold, TextItems, EncodeEntry, EntryOk, EntryBytes, Elsewhere, AllShort, ControlStep, OneMore, AllShow;
    hide Listed, RoomFor, Belongs, IdCount;
    if es == [] {
      NoEntries(c, field, ps);
      d := c;
      assert done + es == done && [] + rest == rest;
    } else {
      EntryTail(es, ps);
      var p, e := ps[0], es[0];
      assert ps == [p] + ps[1..];
      ItemsCons(field, p, ps[1..]);
      AssocItems(Text(field, p), TextItems(field, ps[1..]), rest);
      var next := EntryStep(m, s, field, p, e, c);
      OneMoreElsewhere(c, next, field, e);
      OneMoreShows(c, next, field, e, done);
      ControlCons(m, s, Text(field, p), TextItems(field, ps[1..]) + rest, c);
      d := EntriesRead(m, s, field, ps[1..], es[1..], rest, next, done + [e]);
      ElsewhereThen(c, next, d, field);
      assert (done + [e]) + es[1..] == done + es;
    }
  }

  /** The decoded control section shows the encoded one. */
  predicate ControlShows(d: ControlView, c: Control) {
    && AllShow(d, 1, IHaves(c.ihave)) && AllShow(d, 2, IdLists(c.iwant)) && AllShow(d, 3, Grafts(c.graft))
    && AllShow(d, 4, Prunes(c.prune)) && AllShow(d, 5, IdLists(c.idontwant))
  }

  function ControlIds(c: Control): nat {
    IdsOf(IHaves(c.ihave)) + IdsOf(IdLists(c.iwant)) + IdsOf(IdLists(c.idontwant))
  }

  /** Room for every entry, and for all message ids together. */
  predicate ControlRoom(s: Storage, c: Control) {
    && |c.ihave| <= s.ihave && |c.iwant| <= s.iwant && |c.graft| <= s.graft && |c.prune| <= s.prune
    && |c.idontwant| <= s.idontwant
    && ControlIds(c) <= s.ids
  }

  predicate Backoffs(c: Control) {
    forall i :: 0 <= i < |c.prune| ==> c.prune[i].backoff < Varint.LIMIT
  }

  lemma RunShort(field: nat, es: seq<Entry>, base: nat)
    requires |EntryFields(field, es)| < Varint.LIMIT
    ensures Short(EntryBytes(es)) && AllShort(EntryBytes(es), SpansOf(field, EntryBytes(es), base))
  {
    hide Fields;
    ElementsShort(field, EntryBytes(es));
  }

  /** The items of a run of entries in front of more bytes */
  lemma RunItems(field: nat, es: seq<Entry>, rest: seq<byte>, base: nat) returns (ps: seq<Span>)
    requires field < 0x1000_0000 && |EntryFields(field, es)| < Varint.LIMIT
    ensures AllShort(EntryBytes(es), ps)
    ensures
      var after := ItemsOf(rest, base + |EntryFields(field, es)|);
      ItemsOf(EntryFields(field, es) + rest, base) == Items(TextItems(field, ps) + after.list, after.end)
  {
    hide ItemsOf, TextItems, Fields, SpansOf, EntryBytes, AllShort, Short;
    RunShort(field, es, base);
    ps := SpansOf(field, EntryBytes(es), base);
    FieldsItems(field, EntryBytes(es), rest, base);
  }

  /** The fields of an encoded control section: five runs */
  lemma ControlItems(c: Control, base: nat)
    returns (a: seq<Span>, b: seq<Span>, g: seq<Span>, p: seq<Span>, e: seq<Span>)
    requires |EncodeControl(c)| < Varint.LIMIT
    ensures ItemsOf(EncodeControl(c), base) ==
      Items(TextItems(1, a) + (TextItems(2, b) + (TextItems(3, g) + (TextItems(4, p) + (TextItems(5, e) + [])))), Clean)
    ensures AllShort(EntryBytes(IHaves(c.ihave)), a) && AllShort(EntryBytes(IdLists(c.iwant)), b)
    ensures AllShort(EntryBytes(Grafts(c.graft)), g) && AllShort(EntryBytes(Prunes(c.prune)), p)
    ensures AllShort(EntryBytes(IdLists(c.idontwant)), e)
  {
    hide ItemsOf, TextItems, EntryFields, IHaves, IdLists, Grafts, Prunes, AllShort, EntryBytes;
    var f1, f2, f3 := EntryFields(1, IHaves(c.ihave)), EntryFields(2, IdLists(c.iwant)),
      EntryFields(3, Grafts(c.graft));
    var f4, f5 := EntryFields(4, Prunes(c.prune)), EntryFields(5, IdLists(c.idontwant));
    var b2 := base + |f1|;
    var b3 := b2 + |f2|;
    var b4 := b3 + |f3|;
    var b5 := b4 + |f4|;
    a := RunItems(1, IHaves(c.ihave), f2 + (f3 + (f4 + f5)), base);
    b := RunItems(2, IdLists(c.iwant), f3 + (f4 + f5), b2);
    g := RunItems(3, Grafts(c.graft), f4 + f5, b3);
    p := RunItems(4, Prunes(c.prune), f5, b4);
    e := RunItems(5, IdLists(c.idontwant), [], b5);
    assert f5 + [] == f5;
    NothingItems(b5 + |f5|);
  }

  lemma Empty()
    ensures forall field :: 1 <= field <= 5 ==> AllShow(NO_CONTROL_VIEW, field, [])
  {
  }

  /** IHAVE, IWANT and GRAFT runs */
  lemma FrontReads(m: Limits, s: Storage, c: Control, a: seq<Span>, b: seq<Span>, g: seq<Span>, rest: seq<Item>)
    returns (d: ControlView)
    requires ControlFits(m, c) && ControlRoom(s, c)
    requires AllShort(EntryBytes(IHaves(c.ihave)), a) && AllShort(EntryBytes(IdLists(c.iwant)), b)
    requires AllShort(EntryBytes(Grafts(c.graft)), g)
    ensures ControlFold(m, s, TextItems(1, a) + (TextItems(2, b) + (TextItems(3, g) + rest)), NO_CONTROL_VIEW) ==
      ControlFold(m, s, rest, d)
    ensures AllShow(d, 1, IHaves(c.ihave)) && AllShow(d, 2, IdLists(c.iwant)) && AllShow(d, 3, Grafts(c.graft))
    ensures AllShow(d, 4, []) && AllShow(d, 5, []) && |d.ids| == IdsOf(IHaves(c.ihave)) + IdsOf(IdLists(c.iwant))
  {
    hide ControlFold, TextItems, EntryBytes, AllShort, AllOk, AllShow, Elsewhere, IdsOf;
    Empty();
    var x1, x2, x3 := IHaves(c.ihave), IdLists(c.iwant), Grafts(c.graft);
    assert [] + x1 == x1 && [] + x2 == x2 && [] + x3 == x3;
    NoGraftIds(c.graft);
    var c1 := EntriesRead(m, s, 1, a, x1, TextItems(2, b) + (TextItems(3, g) + rest), NO_CONTROL_VIEW, []);
    Others(NO_CONTROL_VIEW, c1, 1);
    ShownCount(c1, 2, []);
    var c2 := EntriesRead(m, s, 2, b, x2, TextItems(3, g) + rest, c1, []);
    Others(c1, c2, 2);
    ShowsStays(c1, c2, 2, 1, x1);
    ShownCount(c2, 3, []);
    d := EntriesRead(m, s, 3, g, x3, rest, c2, []);
    Others(c2, d, 3);
    ShowsStays(c2, d, 3, 1, x1);
    ShowsStays(c2, d, 3, 2, x2);
  }

  /** Fields that have shown nothing yet still show nothing. */
  lemma Others(c: ControlView, d: ControlView, field: nat)
    requires Elsewhere(c, d, field) && 1 <= field <= 5
    ensures forall other :: 1 <= other <= 5 && other != field && AllShow(c, other, []) ==> AllShow(d, other, [])
  {
  }

  lemma ShownCount(c: ControlView, field: nat, es: seq<Entry>)
    requires AllShow(c, field, es)
    ensures Listed(c, field) == |es|
  {
  }

  lemma {:induction false} NoIds(es: seq<Entry>)
    requires forall i :: 0 <= i < |es| ==> IdCount(es[i]) == 0
    ensures IdsOf(es) == 0
  {
    if es != [] { NoIds(es[1..]); }
  }

  lemma NoGraftIds(ts: seq<seq<byte>>)
    ensures IdsOf(Grafts(ts)) == 0
  {
    NoIds(Grafts(ts));
  }

  lemma NoPruneIds(ps: seq<Prune>)
    ensures IdsOf(Prunes(ps)) == 0
  {
    NoIds(Prunes(ps));
  }

  /** PRUNE and IDONTWANT runs */
  lemma BackReads(m: Limits, s: Storage, c: Control, p: seq<Span>, e: seq<Span>, d: ControlView)
    returns (z: ControlView)
    requires ControlFits(m, c) && ControlRoom(s, c) && Backoffs(c)
    requires AllShort(EntryBytes(Prunes(c.prune)), p) && AllShort(EntryBytes(IdLists(c.idontwant)), e)
    requires AllShow(d, 1, IHaves(c.ihave)) && AllShow(d, 2, IdLists(c.iwant)) && AllShow(d, 3, Grafts(c.graft))
    requires AllShow(d, 4, []) && AllShow(d, 5, []) && |d.ids| == IdsOf(IHaves(c.ihave)) + IdsOf(IdLists(c.iwant))
    ensures ControlFold(m, s, TextItems(4, p) + (TextItems(5, e) + []), d) == Ok(z) && ControlShows(z, c)
  {
    hide ControlFold, TextItems, EntryBytes, AllShort, AllOk, AllShow, Elsewhere, IdsOf;
    var x1, x2, x3, x4, x5 := IHaves(c.ihave), IdLists(c.iwant), Grafts(c.graft), Prunes(c.prune), IdLists(c.idontwant);
    assert [] + x4 == x4 && [] + x5 == x5;
    NoPruneIds(c.prune);
    ShownCount(d, 4, []);
    var c4 := EntriesRead(m, s, 4, p, x4, TextItems(5, e) + [], d, []);
    Others(d, c4, 4);
    ShownCount(c4, 5, []);
    z := EntriesRead(m, s, 5, e, x5, [], c4, []);
    ControlNothing(m, s, z);
    ShowsStays(c4, z, 5, 4, x4);
    StaysTwice(d, c4, z, 1, x1);
    StaysTwice(d, c4, z, 2, x2);
    StaysTwice(d, c4, z, 3, x3);
  }

  lemma StaysTwice(d: ControlView, y: ControlView, z: ControlView, field: nat, es: seq<Entry>)
    requires Elsewhere(d, y, 4) && Elsewhere(y, z, 5) && 1 <= field <= 3 && AllShow(d, field, es)
    ensures AllShow(z, field, es)
  {
    hide Elsewhere, AllShow;
    ShowsStays(d, y, 4, field, es);
    ShowsStays(y, z, 5, field, es);
  }

  lemma ControlReads(m: Limits, s: Storage, c: Control, base: nat) returns (d: ControlView)
    requires ControlFits(m, c) && |EncodeControl(c)| < Varint.LIMIT && ControlRoom(s, c) && Backoffs(c)
    ensures DecodeControl(m, s, Span(base, EncodeControl(c))) == Ok(d) && ControlShows(d, c)
  {
    hide ItemsOf, TextItems, AllShort, EntryBytes, ControlFold, EncodeControl, ControlFits, ControlRoom, Backoffs;
    hide ControlShows;
    hide AllShow, IdsOf;
    var a, b, g, p, e := ControlItems(c, base);
    var half := FrontReads(m, s, c, a, b, g, TextItems(4, p) + (TextItems(5, e) + []));
    d := BackReads(m, s, c, p, e, half);
    CountsFit(m, c, d);
  }

  lemma CountsFit(m: Limits, c: Control, d: ControlView)
    requires ControlFits(m, c) && ControlShows(d, c)
    ensures ControlCounts(m, d)
  {
    hide Shows, AllOk;
  }

  // ---------------------------------------------------------------------------------- RPC

  lemma RpcCons(m: Limits, s: Storage, i: Item, rest: seq<Item>, r: RpcView)
    requires RpcStep(m, s, r, i).Ok?
    ensures RpcFold(m, s, [i] + rest, r) == RpcFold(m, s, rest, RpcStep(m, s, r, i).value)
  {
    hide RpcStep;
    assert ([i] + rest)[1..] == rest;
  }

  lemma RpcNothing(m: Limits, s: Storage, r: RpcView)
    ensures RpcFold(m, s, [], r) == Ok(r)
  {
  }

  predicate SubsShow(vs: seq<SubView>, xs: seq<Entry>) {
    |vs| == |xs| && forall i :: 0 <= i < |xs| ==>
      xs[i].SubEntry? && vs[i].subscribe == Flag(xs[i].sub.subscribe) && vs[i].topic.data == xs[i].sub.topic
  }

  predicate MessagesShow(vs: seq<MessageView>, xs: seq<Entry>) {
    |vs| == |xs| && forall i :: 0 <= i < |xs| ==> xs[i].MessageEntry? && MessageOf(vs[i]) == xs[i].message
  }

  /** What one of the two fields with a count of their own shows: subscriptions in field 1, messages in field 2. */
  predicate TopShow(r: RpcView, field: nat, es: seq<Entry>) {
    if field == 1 then SubsShow(r.subs, es) else MessagesShow(r.publish, es)
  }

  predicate TopElsewhere(r: RpcView, q: RpcView, field: nat) {
    q == if field == 1 then r.(subs := q.subs) else r.(publish := q.publish)
  }

  predicate TopRoom(s: Storage, r: RpcView, field: nat, n: nat) {
    if field == 1 then |r.subs| + n <= s.subs else |r.publish| + n <= s.publish
  }

  lemma TopStep(m: Limits, s: Storage, field: nat, p: Span, e: Entry, r: RpcView, done: seq<Entry>, n: nat)
    returns (q: RpcView)
    requires (field == 1 && e.SubEntry?) || (field == 2 && e.MessageEntry?)
    requires EntryOk(m, e) && p.data == EncodeEntry(e) && |p.data| < Varint.LIMIT
    requires TopRoom(s, r, field, n + 1) && TopShow(r, field, done)
    ensures RpcStep(m, s, r, Text(field, p)) == Ok(q) && TopElsewhere(r, q, field)
    ensures TopShow(q, field, done + [e]) && TopRoom(s, q, field, n)
  {
    hide DecodeSub, DecodeMessage, EncodeSub, EncodeMessage, EntryOk;
    if field == 1 {
      var v := SubReads(m, e.sub, p.start);
      assert p == Span(p.start, EncodeSub(e.sub));
    } else {
      var v := MessageReads(m, e.message, p.start);
      assert p == Span(p.start, EncodeMessage(e.message));
    }
    q := RpcStep(m, s, r, Text(field, p)).value;
  }

  predicate Tops(field: nat, es: seq<Entry>) {
    forall i :: 0 <= i < |es| ==> (field == 1 && es[i].SubEntry?) || (field == 2 && es[i].MessageEntry?)
  }

  lemma TopElsewhereThen(r: RpcView, q: RpcView, z: RpcView, field: nat)
    ensures TopElsewhere(r, r, field)
    ensures TopElsewhere(r, q, field) && TopElsewhere(q, z, field) ==> TopElsewhere(r, z, field)
  {
  }

  lemma NoTops(field: nat, ps: seq<Span>)
    requires AllShort(EntryBytes([]), ps)
    ensures TextItems(field, ps) == []
  {
  }

  /** The subscriptions, or the messages, in front of whatever else there is */
  lemma {:induction false} TopsRead(m: Limits, s: Storage, field: nat, ps: seq<Span>, es: seq<Entry>, r: RpcView,
                                    done: seq<Entry>, rest: seq<Item>)
    returns (q: RpcView)
    requires Tops(field, es) && AllShort(EntryBytes(es), ps)
    requires AllOk(m, es) && TopRoom(s, r, field, |es|) && TopShow(r, field, done)
    ensures RpcFold(m, s, TextItems(field, ps) + rest, r) == RpcFold(m, s, rest, q)
    ensures TopElsewhere(r, q, field) && TopShow(q, field, done + es)
    decreases |es|
  {
    hide RpcFold, TextItems, EncodeEntry, EntryOk, RpcStep, EntryBytes, AllShort, TopShow, TopElsewhere, TopRoom;
    if es == [] {
      NoTops(field, ps);
      q := r;
      TopElsewhereThen(r, r, r, field);
      assert done + es == done && [] + rest == rest;
    } else {
      EntryTail(es, ps);
      var p, e := ps[0], es[0];
      assert ps == [p] + ps[1..];
      ItemsCons(field, p, ps[1..]);
      AssocItems(Text(field, p), TextItems(field, ps[1..]), rest);
      var next := TopStep(m, s, field, p, e, r, done, |es| - 1);
      RpcCons(m, s, Text(field, p), TextItems(field, ps[1..]) + rest, r);
      q := TopsRead(m, s, field, ps[1..], es[1..], next, done + [e], rest);
      TopElsewhereThen(r, next, q, field);
      assert (done + [e]) + es[1..] == done + es;
    }
  }

  /** The decoded RPC shows the encoded one: empty fields are absent, subscribe flags are 0 or 1. */
  predicate RpcShows(q: RpcView, r: Rpc) {
    SubsShow(q.subs, Subs(r.subs)) && MessagesShow(q.publish, Messages(r.publish)) && ControlShows(q.control, r.control)
  }

  predicate RpcRoom(s: Storage, r: Rpc) {
    |r.subs| <= s.subs && |r.publish| <= s.publish && ControlRoom(s, r.control)
  }

  function ControlItem(p: Option<Span>): seq<Item> {
    if p.Some? then [Text(3, p.value)] else []
  }

  /** The control section, if any, as the last field */
  predicate LastIs(p: Option<Span>, c: Control) {
    if c == NO_CONTROL then p == None else p.Some? && p.value.data == EncodeControl(c) && |p.value.data| < Varint.LIMIT
  }

  lemma LastItems(c: Control, base: nat) returns (p: Option<Span>)
    requires |EncodeControl(c)| < Varint.LIMIT
    ensures LastIs(p, c)
    ensures ItemsOf(if c == NO_CONTROL then [] else LenField(3, EncodeControl(c)), base) == Items(ControlItem(p), Clean)
  {
    hide ItemsOf, LenField, EncodeControl;
    if c == NO_CONTROL {
      p := None;
      NothingItems(base);
    } else {
      var d := EncodeControl(c);
      var tail := LenField(3, d);
      LenFieldLong(3, d);
      assert tail + [] == tail;
      LenFieldFirst(3, d, [], base);
      NothingItems(base + |tail|);
      p := Some(Span(base + |tail| - |d|, d));
      assert [Text(3, p.value)] + [] == [Text(3, p.value)];
    }
  }

  /** The fields of an encoded body */
  lemma BodyItems(r: Rpc, base: nat) returns (a: seq<Span>, b: seq<Span>, c: Option<Span>)
    requires |EncodeBody(r)| < Varint.LIMIT
    ensures ItemsOf(EncodeBody(r), base) == Items(TextItems(1, a) + (TextItems(2, b) + ControlItem(c)), Clean)
    ensures AllShort(EntryBytes(Subs(r.subs)), a)
    ensures AllShort(EntryBytes(Messages(r.publish)), b) && LastIs(c, r.control)
  {
    hide ItemsOf, TextItems, EntryFields, Subs, Messages, AllShort, EntryBytes, LenField, EncodeControl, ControlItem;
    hide LastIs;
    var tail := if r.control == NO_CONTROL then [] else LenField(3, EncodeControl(r.control));
    var f1, f2 := EntryFields(1, Subs(r.subs)), EntryFields(2, Messages(r.publish));
    LenFieldLong(3, EncodeControl(r.control));
    EmptyControl();
    a := RunItems(1, Subs(r.subs), f2 + tail, base);
    b := RunItems(2, Messages(r.publish), tail, base + |f1|);
    c := LastItems(r.control, base + |f1| + |f2|);
  }

  lemma EmptyControl()
    ensures |EncodeControl(NO_CONTROL)| == 0 && ControlShows(NO_CONTROL_VIEW, NO_CONTROL)
  {
  }

  /** The control item, if any, behind everything else */
  lemma LastItem(m: Limits, s: Storage, c: Control, p: Option<Span>, r: RpcView) returns (q: RpcView)
    requires ControlFits(m, c) && ControlRoom(s, c) && Backoffs(c) && r.control == NO_CONTROL_VIEW && LastIs(p, c)
    ensures RpcFold(m, s, ControlItem(p), r) == Ok(q) && q == r.(control := q.control) && ControlShows(q.control, c)
  {
    hide RpcFold, EncodeControl, DecodeControl, ControlShows, ControlFits, ControlRoom, Backoffs;
    if c == NO_CONTROL {
      EmptyControl();
      RpcNothing(m, s, r);
      q := r;
    } else {
      var d := ControlReads(m, s, c, p.value.start);
      assert p.value == Span(p.value.start, EncodeControl(c));
      q := r.(control := d);
      assert RpcStep(m, s, r, Text(3, p.value)) == Ok(q);
      assert [Text(3, p.value)] + [] == [Text(3, p.value)];
      RpcCons(m, s, Text(3, p.value), [], r);
      RpcNothing(m, s, q);
    }
  }

  lemma BodyFolds(m: Limits, s: Storage, r: Rpc, a: seq<Span>, b: seq<Span>, c: Option<Span>) returns (q: RpcView)
    requires RpcFits(m, r) && RpcRoom(s, r) && Backoffs(r.control)
    requires AllShort(EntryBytes(Subs(r.subs)), a)
    requires AllShort(EntryBytes(Messages(r.publish)), b) && LastIs(c, r.control)
    ensures RpcFold(m, s, TextItems(1, a) + (TextItems(2, b) + ControlItem(c)), RpcView([], [], NO_CONTROL_VIEW)) ==
      Ok(q)
    ensures RpcShows(q, r) && |q.subs| == |r.subs| && |q.publish| == |r.publish|
  {
    hide TextItems, RpcFold, AllShort, EntryBytes, AllOk, ControlFits, ControlRoom, Backoffs, ControlShows;
    hide ControlItem, LastIs, EncodeBody;
    var z, x1, x2 := RpcView([], [], NO_CONTROL_VIEW), Subs(r.subs), Messages(r.publish);
    assert [] + x1 == x1 && [] + x2 == x2;
    var q1 := TopsRead(m, s, 1, a, x1, z, [], TextItems(2, b) + ControlItem(c));
    var q2 := TopsRead(m, s, 2, b, x2, q1, [], ControlItem(c));
    q := LastItem(m, s, r.control, c, q2);
  }

  lemma BodyReads(v: Version, m: Limits, s: Storage, r: Rpc, base: nat) returns (q: RpcView)
    requires BodySize(v, m, r).Ok? && |EncodeBody(r)| < Varint.LIMIT && RpcRoom(s, r) && Backoffs(r.control)
    ensures DecodeBody(v, m, s, Span(base, EncodeBody(r))) == Ok(q) && RpcShows(q, r)
  {
    hide BodySize, ItemsOf, TextItems, RpcFold, EncodeBody, RpcShows, RpcFits, RpcRoom, Backoffs, AllShort;
    hide EntryBytes, LastIs;
    BodyFacts(v, m, r);
    var a, b, c := BodyItems(r, base);
    q := BodyFolds(m, s, r, a, b, c);
  }

  lemma BodyFacts(v: Version, m: Limits, r: Rpc)
    requires BodySize(v, m, r).Ok?
    ensures RpcFits(m, r) && v != Unknown && ValidLimits(m)
    ensures |EncodeBody(r)| <= m.rpc && |r.subs| <= m.subs && |r.publish| <= m.publish
  {
    hide BodySize, EncodeBody, AllOk, ControlFits;
    BodyExact(v, m, r);
    VersionAndLimits(v, m, r);
  }

  lemma VersionAndLimits(v: Version, m: Limits, r: Rpc)
    requires BodySize(v, m, r).Ok?
    ensures v != Unknown && ValidLimits(m)
  {
    hide SumSizes, ControlSize;
  }

  /**
    frame_decode(frame_encode(rpc)) = rpc, for every RPC within limits, with backoffs below 2^63 and enough
    decode storage, up to empty fields and the value of a set subscribe flag.
  */
  lemma FrameRoundTrip(v: Version, m: Limits, s: Storage, r: Rpc) returns (q: RpcView)
    requires FrameSize(v, m, r).Ok? && |EncodeBody(r)| < Varint.LIMIT && RpcRoom(s, r) && Backoffs(r.control)
    ensures DecodeFrame(v, m, s, EncodeFrame(r)) == Ok(q) && RpcShows(q, r)
  {
    hide BodySize, DecodeBody, EncodeBody, RpcShows, RpcRoom, Backoffs, Varint.Encode, Varint.Decode;
    FrameOpens(r);
    BodyFacts(v, m, r);
    q := BodyReads(v, m, s, r, |Varint.Encode(|EncodeBody(r)|)|);
  }

  /** The frame's length reads back, and the body is what stands behind it. */
  lemma FrameOpens(r: Rpc)
    requires |EncodeBody(r)| < Varint.LIMIT
    ensures
      var n := |EncodeBody(r)|;
      var k := |Varint.Encode(n)|;
      && Varint.Decode(EncodeFrame(r)) == Varint.Ok(n, k) && k + n == |EncodeFrame(r)|
      && EncodeFrame(r)[k..] == EncodeBody(r)
  {
    hide EncodeBody, Varint.Encode, Varint.Decode;
    Varint.RoundTrip(|EncodeBody(r)|, EncodeBody(r));
  }
}
