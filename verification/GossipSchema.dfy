/** The bytes that the gossipsub protobuf schema demands, written out in literals, and the codec against them. */
module GossipSchema {
  import opened Bytes
  import opened GossipWire
  import opened Gossip
  import opened GossipDecode
  import opened GossipRoundTrip
  import Varint

  // ------------------------------------------------------------------------- the schema

  /** A length-delimited field behind its one-byte tag */
  function Delimited(tag: byte, data: seq<byte>): seq<byte> { [tag] + Varint.Encode(|data|) + data }
  function Optional(tag: byte, data: seq<byte>): seq<byte> { if data == [] then [] else Delimited(tag, data) }
  function Repeated(tag: byte, list: seq<seq<byte>>): seq<byte> {
    if list == [] then [] else Delimited(tag, list[0]) + Repeated(tag, list[1..])
  }

  /** RPC.SubOpts: bool subscribe = 1; string topicid = 2 */
  function SubBytes(x: Sub): seq<byte> {
    [0x08, if x.subscribe == 0 then 0 else 1] + Delimited(0x12, x.topic)
  }

  /** Message: from = 1, data = 2, seqno = 3, topic = 4, signature = 5, key = 6 */
  function MessageBytes(x: Message): seq<byte> {
    Optional(0x0A, x.from) + (Optional(0x12, x.data) + (Optional(0x1A, x.seqno) + (Delimited(0x22, x.topic) +
      (Optional(0x2A, x.signature) + Optional(0x32, x.key)))))
  }

  /** ControlIHave: topicID = 1, repeated messageIDs = 2 */
  function IHaveBytes(x: IHave): seq<byte> { Delimited(0x0A, x.topic) + Repeated(0x12, x.ids) }

  /** ControlIWant and ControlIDontWant: repeated messageIDs = 1 */
  function IdsBytes(x: Ids): seq<byte> { Repeated(0x0A, x) }

  /** ControlGraft: topicID = 1 */
  function GraftBytes(x: seq<byte>): seq<byte> { Delimited(0x0A, x) }

  /** ControlPrune: topicID = 1, uint64 backoff = 3 */
  function PruneBytes(x: Prune): seq<byte> {
    Delimited(0x0A, x.topic) + (if x.backoff == 0 then [] else [0x18] + Varint.Encode(x.backoff))
  }

  function AllIHave(xs: seq<IHave>): (r: seq<seq<byte>>)
    ensures |r| == |xs| && forall i :: 0 <= i < |xs| ==> r[i] == IHaveBytes(xs[i])
  {
    seq(|xs|, i requires 0 <= i < |xs| => IHaveBytes(xs[i]))
  }

  function AllIds(xs: seq<Ids>): (r: seq<seq<byte>>)
    ensures |r| == |xs| && forall i :: 0 <= i < |xs| ==> r[i] == IdsBytes(xs[i])
  {
    seq(|xs|, i requires 0 <= i < |xs| => IdsBytes(xs[i]))
  }

  function AllGraft(xs: seq<seq<byte>>): (r: seq<seq<byte>>)
    ensures |r| == |xs| && forall i :: 0 <= i < |xs| ==> r[i] == GraftBytes(xs[i])
  {
    seq(|xs|, i requires 0 <= i < |xs| => GraftBytes(xs[i]))
  }

  function AllPrune(xs: seq<Prune>): (r: seq<seq<byte>>)
    ensures |r| == |xs| && forall i :: 0 <= i < |xs| ==> r[i] == PruneBytes(xs[i])
  {
    seq(|xs|, i requires 0 <= i < |xs| => PruneBytes(xs[i]))
  }

  function AllSub(xs: seq<Sub>): (r: seq<seq<byte>>)
    ensures |r| == |xs| && forall i :: 0 <= i < |xs| ==> r[i] == SubBytes(xs[i])
  {
    seq(|xs|, i requires 0 <= i < |xs| => SubBytes(xs[i]))
  }

  function AllMessage(xs: seq<Message>): (r: seq<seq<byte>>)
    ensures |r| == |xs| && forall i :: 0 <= i < |xs| ==> r[i] == MessageBytes(xs[i])
  {
    seq(|xs|, i requires 0 <= i < |xs| => MessageBytes(xs[i]))
  }

  /** ControlMessage: ihave = 1, iwant = 2, graft = 3, prune = 4, idontwant = 5 */
  function ControlBytes(c: Control): seq<byte> {
    Repeated(0x0A, AllIHave(c.ihave)) +
    (Repeated(0x12, AllIds(c.iwant)) +
    (Repeated(0x1A, AllGraft(c.graft)) +
    (Repeated(0x22, AllPrune(c.prune)) +
     Repeated(0x2A, AllIds(c.idontwant)))))
  }

  /** RPC: repeated subscriptions = 1, repeated publish = 2, control = 3 */
  function RpcBytes(r: Rpc): seq<byte> {
    Repeated(0x0A, AllSub(r.subs)) +
    (Repeated(0x12, AllMessage(r.publish)) +
     (if r.control == NO_CONTROL then [] else Delimited(0x1A, ControlBytes(r.control))))
  }

  // --------------------------------------------------------------- what the encoder writes

  /** The tag of a field below 16 is one byte: eight times its number, and 2 if a length follows. */
  lemma LenFieldTag(field: nat, data: seq<byte>)
    requires 1 <= field < 16
    ensures LenField(field, data) == Delimited(8 * field + 2, data)
  {
    assert Varint.Encode(Key(field, LEN)) == [8 * field + 2];
    hide Varint.Encode;
  }

  lemma VarintFieldTag(field: nat, value: nat)
    requires 1 <= field < 16
    ensures VarintField(field, value) == [8 * field] + Varint.Encode(value)
  {
    assert Varint.Encode(Key(field, VARINT)) == [8 * field];
    hide Varint.Encode;
  }

  lemma {:induction false} FieldsTag(field: nat, list: seq<seq<byte>>)
    requires 1 <= field < 16
    ensures Fields(field, list) == Repeated(8 * field + 2, list)
    decreases |list|
  {
    hide LenField, Delimited;
    if list != [] {
      LenFieldTag(field, list[0]);
      FieldsTag(field, list[1..]);
    }
  }

  lemma OptFieldTag(field: nat, data: seq<byte>)
    requires 1 <= field < 16
    ensures OptField(field, data) == Optional(8 * field + 2, data)
  {
    hide LenField, Delimited;
    LenFieldTag(field, data);
  }

  lemma SubOnWire(x: Sub)
    ensures EncodeSub(x) == SubBytes(x)
  {
    hide LenField, VarintField, Delimited;
    VarintFieldTag(1, Flag(x.subscribe));
    LenFieldTag(2, x.topic);
    assert Varint.Encode(Flag(x.subscribe)) == [Flag(x.subscribe)];
    hide Varint.Encode;
  }

  lemma MessageOnWire(x: Message)
    ensures EncodeMessage(x) == MessageBytes(x)
  {
    hide LenField, OptField, Delimited, Optional;
    OptFieldTag(1, x.from);
    OptFieldTag(2, x.data);
    OptFieldTag(3, x.seqno);
    LenFieldTag(4, x.topic);
    OptFieldTag(5, x.signature);
    OptFieldTag(6, x.key);
  }

  lemma SmallOnWire(h: IHave, ids: Ids, topic: seq<byte>, p: Prune)
    ensures EncodeIHave(h) == IHaveBytes(h) && EncodeIds(ids) == IdsBytes(ids)
    ensures EncodeGraft(topic) == GraftBytes(topic) && EncodePrune(p) == PruneBytes(p)
  {
    hide LenField, VarintField, Fields, Delimited, Repeated, Varint.Encode;
    LenFieldTag(1, h.topic);
    FieldsTag(2, h.ids);
    FieldsTag(1, ids);
    LenFieldTag(1, topic);
    LenFieldTag(1, p.topic);
    VarintFieldTag(3, p.backoff);
  }

  /** A run of entries goes out as the field repeated once for each. */
  lemma EntriesOnWire(field: nat, es: seq<Entry>, list: seq<seq<byte>>)
    requires 1 <= field < 16 && |list| == |es| && forall i :: 0 <= i < |es| ==> EncodeEntry(es[i]) == list[i]
    ensures EntryFields(field, es) == Repeated(8 * field + 2, list)
  {
    hide EncodeEntry, Fields, Repeated;
    FieldsTag(field, list);
    assert EntryBytes(es) == list;
  }

  lemma IHavesOnWire(xs: seq<IHave>)
    ensures EntryFields(1, IHaves(xs)) == Repeated(0x0A, AllIHave(xs))
  {
    hide EncodeIHave, IHaveBytes, Repeated, EntryFields;
    forall i | 0 <= i < |xs| ensures EncodeIHave(xs[i]) == IHaveBytes(xs[i]) {
      SmallOnWire(xs[i], [], [], Prune([], 0));
    }
    EntriesOnWire(1, IHaves(xs), AllIHave(xs));
  }

  lemma IdListsOnWire(field: nat, xs: seq<Ids>)
    requires 1 <= field < 16
    ensures EntryFields(field, IdLists(xs)) ==
      Repeated(8 * field + 2, AllIds(xs))
  {
    hide EncodeIds, IdsBytes, Repeated, EntryFields;
    forall i | 0 <= i < |xs| ensures EncodeIds(xs[i]) == IdsBytes(xs[i]) {
      SmallOnWire(IHave([], []), xs[i], [], Prune([], 0));
    }
    EntriesOnWire(field, IdLists(xs), AllIds(xs));
  }

  lemma GraftsOnWire(xs: seq<seq<byte>>)
    ensures EntryFields(3, Grafts(xs)) == Repeated(0x1A, AllGraft(xs))
  {
    hide EncodeGraft, GraftBytes, Repeated, EntryFields;
    forall i | 0 <= i < |xs| ensures EncodeGraft(xs[i]) == GraftBytes(xs[i]) {
      SmallOnWire(IHave([], []), [], xs[i], Prune([], 0));
    }
    EntriesOnWire(3, Grafts(xs), AllGraft(xs));
  }

  lemma PrunesOnWire(xs: seq<Prune>)
    ensures EntryFields(4, Prunes(xs)) == Repeated(0x22, AllPrune(xs))
  {
    hide EncodePrune, PruneBytes, Repeated, EntryFields;
    forall i | 0 <= i < |xs| ensures EncodePrune(xs[i]) == PruneBytes(xs[i]) {
      SmallOnWire(IHave([], []), [], [], xs[i]);
    }
    EntriesOnWire(4, Prunes(xs), AllPrune(xs));
  }

  lemma SubsOnWire(xs: seq<Sub>)
    ensures EntryFields(1, Subs(xs)) == Repeated(0x0A, AllSub(xs))
  {
    hide EncodeSub, SubBytes, Repeated, EntryFields;
    forall i | 0 <= i < |xs| ensures EncodeSub(xs[i]) == SubBytes(xs[i]) { SubOnWire(xs[i]); }
    EntriesOnWire(1, Subs(xs), AllSub(xs));
  }

  lemma MessagesOnWire(xs: seq<Message>)
    ensures EntryFields(2, Messages(xs)) == Repeated(0x12, AllMessage(xs))
  {
    hide EncodeMessage, MessageBytes, Repeated, EntryFields;
    forall i | 0 <= i < |xs| ensures EncodeMessage(xs[i]) == MessageBytes(xs[i]) { MessageOnWire(xs[i]); }
    EntriesOnWire(2, Messages(xs), AllMessage(xs));
  }

  lemma ControlOnWire(c: Control)
    ensures EncodeControl(c) == ControlBytes(c)
  {
    hide EntryFields, Repeated;
    IHavesOnWire(c.ihave);
    IdListsOnWire(2, c.iwant);
    GraftsOnWire(c.graft);
    PrunesOnWire(c.prune);
    IdListsOnWire(5, c.idontwant);
  }

  lemma BodyOnWire(r: Rpc)
    ensures EncodeBody(r) == RpcBytes(r)
  {
    hide EntryFields, Repeated, LenField, Delimited, EncodeControl, ControlBytes, Varint.Encode;
    SubsOnWire(r.subs);
    MessagesOnWire(r.publish);
    ControlOnWire(r.control);
    LenFieldTag(3, EncodeControl(r.control));
  }

  /** Every RPC goes out as the schema says, behind its length. */
  lemma FrameOnWire(r: Rpc)
    ensures EncodeFrame(r) == Varint.Encode(|RpcBytes(r)|) + RpcBytes(r)
  {
    hide EncodeBody, RpcBytes, Varint.Encode;
    BodyOnWire(r);
  }

  // ------------------------------------------------------------- what the decoder accepts

  /** A field of any number: its tag, and behind it what wire type 0, 1, 2 or 5 announces. */
  datatype Raw = RawVarint(value: nat) | RawFixed64(data: seq<byte>) | RawBytes(data: seq<byte>)
    | RawFixed32(data: seq<byte>)

  predicate RawOk(x: Raw) {
    match x
    case RawVarint(v) => v < Varint.LIMIT
    case RawFixed64(d) => |d| == 8
    case RawBytes(d) => |d| < Varint.LIMIT
    case RawFixed32(d) => |d| == 4
  }

  function RawField(field: nat, x: Raw): seq<byte> {
    match x
    case RawVarint(v) => Varint.Encode(8 * field) + Varint.Encode(v)
    case RawFixed64(d) => Varint.Encode(8 * field + 1) + d
    case RawBytes(d) => Varint.Encode(8 * field + 2) + (Varint.Encode(|d|) + d)
    case RawFixed32(d) => Varint.Encode(8 * field + 5) + d
  }

  /** What the reader makes of the field: a number, a piece of the input, or nothing to look at. */
  function RawItem(field: nat, x: Raw, end: nat): Item {
    match x
    case RawVarint(v) => Number(field, v)
    case RawBytes(d) => Text(field, Span(if end >= |d| then end - |d| else 0, d))
    case _ => Fixed(field)
  }

  /** The key comes first: field number and wire type are what the bytes say. */
  lemma KeyFirst(field: nat, wire: nat, t: seq<byte>)
    requires field < 0x1000_0000 && wire < 8
    ensures
      var k := Varint.Decode(Varint.Encode(8 * field + wire) + t);
      && k == Varint.Ok(8 * field + wire, Varint.Size(8 * field + wire))
      && k.value / 8 % 0x1_0000_0000 == field && k.value % 8 == wire
      && (Varint.Encode(8 * field + wire) + t)[k.read..] == t
  {
    hide Varint.Encode, Varint.Decode;
    KeyReads(field, wire);
    assert Key(field, wire) == 8 * field + wire;
    Varint.RoundTrip(8 * field + wire, t);
  }

  lemma RawReads(field: nat, x: Raw, rest: seq<byte>, base: nat)
    requires field < 0x1000_0000 && RawOk(x)
    ensures
      var n := |RawField(field, x)|;
      n >= 1 && NextItem(RawField(field, x) + rest, base) == Got(RawItem(field, x, base + n), n)
  {
    hide Varint.Encode, NextItem;
    match x
    case RawVarint(v) => NumberReads(field, v, rest, base);
    case RawBytes(d) => BytesRead(field, d, rest, base);
    case RawFixed64(d) => FixedReads(field, 1, d, rest, base);
    case RawFixed32(d) => FixedReads(field, 5, d, rest, base);
  }

  lemma NumberReads(field: nat, v: nat, rest: seq<byte>, base: nat)
    requires field < 0x1000_0000 && v < Varint.LIMIT
    ensures
      var s := Varint.Encode(8 * field) + Varint.Encode(v);
      NextItem(s + rest, base) == Got(Number(field, v), |s|)
  {
    hide Varint.Encode, Varint.Decode;
    KeyFirst(field, 0, Varint.Encode(v) + rest);
    Varint.RoundTrip(v, rest);
    assert Varint.Encode(8 * field) + Varint.Encode(v) + rest == Varint.Encode(8 * field) + (Varint.Encode(v) + rest);
  }

  lemma BytesRead(field: nat, d: seq<byte>, rest: seq<byte>, base: nat)
    requires field < 0x1000_0000 && |d| < Varint.LIMIT
    ensures
      var s := Varint.Encode(8 * field + 2) + (Varint.Encode(|d|) + d);
      NextItem(s + rest, base) == Got(Text(field, Span(base + |s| - |d|, d)), |s|)
  {
    hide Varint.Encode, Varint.Decode;
    var t := Varint.Encode(|d|) + (d + rest);
    KeyFirst(field, 2, t);
    Varint.RoundTrip(|d|, d + rest);
    assert Varint.Encode(8 * field + 2) + (Varint.Encode(|d|) + d) + rest == Varint.Encode(8 * field + 2) + t;
    assert t[|Varint.Encode(|d|)|..|Varint.Encode(|d|)| + |d|] == d;
  }

  lemma FixedReads(field: nat, wire: nat, d: seq<byte>, rest: seq<byte>, base: nat)
    requires field < 0x1000_0000 && ((wire == 1 && |d| == 8) || (wire == 5 && |d| == 4))
    ensures
      var s := Varint.Encode(8 * field + wire) + d;
      NextItem(s + rest, base) == Got(Fixed(field), |s|)
  {
    hide Varint.Encode, Varint.Decode;
    KeyFirst(field, wire, d + rest);
    assert Varint.Encode(8 * field + wire) + d + rest == Varint.Encode(8 * field + wire) + (d + rest);
  }

  lemma RawFirst(field: nat, x: Raw, rest: seq<byte>, base: nat)
    requires field < 0x1000_0000 && RawOk(x)
    ensures
      var n := |RawField(field, x)|;
      ItemsOf(RawField(field, x) + rest, base) == Prefixed(RawItem(field, x, base + n), ItemsOf(rest, base + n))
  {
    hide NextItem, RawField, RawItem;
    RawReads(field, x, rest, base);
    Behind(RawField(field, x), rest);
  }

  /** A field that the RPC does not have is skipped, whatever its wire type and wherever it stands. */
  lemma {:induction false} UnknownAnywhere(m: Limits, s: Storage, xs: seq<Item>, u: Item, ys: seq<Item>, r: RpcView)
    requires !(1 <= u.field <= 3)
    ensures RpcFold(m, s, xs + [u] + ys, r) == RpcFold(m, s, xs + ys, r)
    decreases |xs|
  {
    hide RpcStep;
    if xs == [] {
      assert xs + [u] + ys == [u] + ys && xs + ys == ys && ([u] + ys)[1..] == ys;
      UnknownStep(m, s, r, u);
    } else {
      assert (xs + [u] + ys)[0] == (xs + ys)[0] == xs[0];
      assert (xs + [u] + ys)[1..] == xs[1..] + [u] + ys && (xs + ys)[1..] == xs[1..] + ys;
      var q := RpcStep(m, s, r, xs[0]);
      if q.Ok? { UnknownAnywhere(m, s, xs[1..], u, ys, q.value); }
    }
  }

  lemma UnknownStep(m: Limits, s: Storage, r: RpcView, u: Item)
    requires !(1 <= u.field <= 3)
    ensures RpcStep(m, s, r, u) == Ok(r)
  {
  }

  /** So a body that opens with one decodes as what comes behind it, as long as the whole is not too long. */
  lemma UnknownSkipped(v: Version, m: Limits, s: Storage, field: nat, x: Raw, rest: seq<byte>, base: nat)
    requires field < 0x1000_0000 && !(1 <= field <= 3) && RawOk(x) && |RawField(field, x)| + |rest| <= m.rpc
    ensures DecodeBody(v, m, s, Span(base, RawField(field, x) + rest)) ==
      DecodeBody(v, m, s, Span(base + |RawField(field, x)|, rest))
  {
    hide RawField, RawItem, RpcFold, ItemsOf;
    RawFirst(field, x, rest, base);
    var n := base + |RawField(field, x)|;
    var it := ItemsOf(rest, n);
    assert RawItem(field, x, n).field == field by { RawNumber(field, x, n); }
    UnknownAnywhere(m, s, [], RawItem(field, x, n), it.list, RpcView([], [], NO_CONTROL_VIEW));
    assert [] + [RawItem(field, x, n)] + it.list == [RawItem(field, x, n)] + it.list && [] + it.list == it.list;
  }

  lemma RawNumber(field: nat, x: Raw, end: nat)
    ensures RawItem(field, x, end).field == field
  {
  }

  /** A field of any other wire type makes the body malformed, known or not. */
  lemma OddWireTypes(v: Version, m: Limits, s: Storage, field: nat, wire: nat, rest: seq<byte>, base: nat)
    requires field < 0x1000_0000 && (wire == 3 || wire == 4 || wire == 6 || wire == 7)
    requires v != Unknown && ValidLimits(m) && |Varint.Encode(8 * field + wire) + rest| <= m.rpc
    ensures DecodeBody(v, m, s, Span(base, Varint.Encode(8 * field + wire) + rest)) == Bad(Malformed)
  {
    hide Varint.Encode, Varint.Decode;
    KeyFirst(field, wire, rest);
    assert NextItem(Varint.Encode(8 * field + wire) + rest, base) == NoPayload(Malformed, field, wire);
    hide NextItem;
  }

  // ------------------------------------------------------- peer exchange, which is only read

  datatype Peer = Peer(id: seq<byte>, record: seq<byte>)

  /** PeerInfo: peerID = 1, signedPeerRecord = 2 */
  function PeerBytes(x: Peer): seq<byte> { Optional(0x0A, x.id) + Optional(0x12, x.record) }

  function AllPeer(xs: seq<Peer>): (r: seq<seq<byte>>)
    ensures |r| == |xs| && forall i :: 0 <= i < |xs| ==> r[i] == PeerBytes(xs[i])
  {
    seq(|xs|, i requires 0 <= i < |xs| => PeerBytes(xs[i]))
  }

  /** ControlPrune as another implementation sends it: topicID = 1, repeated peers = 2, backoff = 3 */
  function PxBytes(topic: seq<byte>, xs: seq<Peer>, backoff: nat): seq<byte> {
    Delimited(0x0A, topic) + (Repeated(0x12, AllPeer(xs)) + ([0x18] + Varint.Encode(backoff)))
  }

  predicate ShowsPeer(v: PeerView, x: Peer) { v.id.data == x.id && v.record.data == x.record }

  lemma PeerFolded(m: Limits, ts: seq<Item>, id: Option<Span>, record: Option<Span>)
    requires record.Some? ==> |record.value.data| <= m.record
    requires ts ==
      (if id.Some? then [Text(1, id.value)] else []) + (if record.Some? then [Text(2, record.value)] else [])
    ensures PeerFold(m, ts, NO_PEER) ==
      Ok(PeerView(if id.Some? then id.value else NO_SPAN, if record.Some? then record.value else NO_SPAN))
  {
    var x := if id.Some? then NO_PEER.(id := id.value) else NO_PEER;
    var rest := if record.Some? then [Text(2, record.value)] else [];
    LastRecord(m, x, rest, record);
    if id.Some? { assert ts[1..] == rest; } else { assert ts == rest; }
  }

  lemma LastRecord(m: Limits, x: PeerView, ts: seq<Item>, record: Option<Span>)
    requires record.Some? ==> |record.value.data| <= m.record
    requires ts == if record.Some? then [Text(2, record.value)] else []
    ensures PeerFold(m, ts, x) == Ok(if record.Some? then x.(record := record.value) else x)
  {
    if record.Some? {
      assert ts[1..] == [];
      assert PeerFold(m, [], x.(record := record.value)) == Ok(x.(record := record.value));
    }
  }

  /** Zero or one field in front of others */
  lemma OptionalFirst(field: nat, data: seq<byte>, rest: seq<byte>, base: nat) returns (p: Option<Span>)
    requires 1 <= field < 16 && |data| < Varint.LIMIT
    ensures p.Some? <==> data != []
    ensures p.Some? ==> p.value.data == data
    ensures
      var after := ItemsOf(rest, base + |Optional(8 * field + 2, data)|);
      ItemsOf(Optional(8 * field + 2, data) + rest, base) ==
        Items((if p.Some? then [Text(field, p.value)] else []) + after.list, after.end)
  {
    hide ItemsOf, Delimited, LenField;
    if data == [] {
      p := None;
      assert [] + rest == rest && [] + ItemsOf(rest, base).list == ItemsOf(rest, base).list;
    } else {
      LenFieldTag(field, data);
      LenFieldFirst(field, data, rest, base);
      LenFieldLong(field, data);
      p := Some(Span(base + |LenField(field, data)| - |data|, data));
    }
  }

  lemma PeerReads(m: Limits, x: Peer, base: nat) returns (v: PeerView)
    requires |x.id| < Varint.LIMIT && |x.record| < Varint.LIMIT && |x.record| <= m.record
    ensures DecodePeer(m, Span(base, PeerBytes(x))) == Ok(v) && ShowsPeer(v, x)
  {
    hide ItemsOf, Optional, PeerFold;
    var a, b := Optional(0x0A, x.id), Optional(0x12, x.record);
    assert b + [] == b;
    var p := OptionalFirst(1, x.id, b + [], base);
    var q := OptionalFirst(2, x.record, [], base + |a|);
    NothingItems(base + |a| + |b|);
    var ts := (if p.Some? then [Text(1, p.value)] else []) + (if q.Some? then [Text(2, q.value)] else []);
    assert (if q.Some? then [Text(2, q.value)] else []) + [] == if q.Some? then [Text(2, q.value)] else [];
    PeerFolded(m, ts, p, q);
    v := PeerView(if p.Some? then p.value else NO_SPAN, if q.Some? then q.value else NO_SPAN);
  }

  /** The spans hold encoded peers, which decode to the views. */
  ghost predicate Decoded(m: Limits, ps: seq<Span>, vs: seq<PeerView>) {
    |vs| == |ps| && forall i :: 0 <= i < |ps| ==> DecodePeer(m, ps[i]) == Ok(vs[i])
  }

  lemma {:induction false} PxFold(m: Limits, cap: nat, ps: seq<Span>, vs: seq<PeerView>, rest: seq<Item>, x: PruneView,
                                  peers: seq<PeerView>)
    requires Decoded(m, ps, vs) && |peers| + |ps| <= cap
    ensures PruneFold(m, cap, TextItems(2, ps) + rest, x, peers) == PruneFold(m, cap, rest, x, peers + vs)
    decreases |ps|
  {
    hide DecodePeer, TextItems;
    if ps == [] {
      NoItems(2);
      assert TextItems(2, ps) + rest == rest && peers + vs == peers;
    } else {
      assert ps == [ps[0]] + ps[1..];
      ItemsCons(2, ps[0], ps[1..]);
      assert DecodePeer(m, ps[0]) == Ok(vs[0]);
      var all := TextItems(2, ps) + rest;
      assert all[0] == Text(2, ps[0]) && all[1..] == TextItems(2, ps[1..]) + rest;
      PxFold(m, cap, ps[1..], vs[1..], rest, x, peers + [vs[0]]);
      assert peers + [vs[0]] + vs[1..] == peers + vs;
    }
  }

  lemma PeersDecode(m: Limits, xs: seq<Peer>, base: nat) returns (vs: seq<PeerView>)
    requires forall i :: 0 <= i < |xs| ==> |xs[i].id| < Varint.LIMIT && |xs[i].record| < Varint.LIMIT
    requires forall i :: 0 <= i < |xs| ==> |xs[i].record| <= m.record
    ensures Decoded(m, SpansOf(2, AllPeer(xs), base), vs)
    ensures forall i :: 0 <= i < |xs| ==> ShowsPeer(vs[i], xs[i])
  {
    hide DecodePeer, SpansOf, PeerBytes;
    var ps := SpansOf(2, AllPeer(xs), base);
    vs := [];
    while |vs| < |xs|
      invariant |vs| <= |xs|
      invariant forall i :: 0 <= i < |vs| ==> DecodePeer(m, ps[i]) == Ok(vs[i]) && ShowsPeer(vs[i], xs[i])
    {
      var k := |vs|;
      var v := PeerReads(m, xs[k], ps[k].start);
      assert ps[k] == Span(ps[k].start, PeerBytes(xs[k]));
      vs := vs + [v];
    }
  }

  lemma PxItems(topic: seq<byte>, xs: seq<Peer>, backoff: nat, base: nat) returns (t: Span, at: nat)
    requires |PxBytes(topic, xs, backoff)| < Varint.LIMIT && backoff < Varint.LIMIT
    ensures t.data == topic
    ensures ItemsOf(PxBytes(topic, xs, backoff), base) ==
      Items([Text(1, t)] + (TextItems(2, SpansOf(2, AllPeer(xs), at)) + [Number(3, backoff)]), Clean)
  {
    hide ItemsOf, TextItems, SpansOf, LenField, Delimited, Repeated, VarintField, Fields;
    var a, b, c := Delimited(0x0A, topic), Repeated(0x12, AllPeer(xs)), [0x18] + Varint.Encode(backoff);
    LenFieldTag(1, topic);
    FieldsTag(2, AllPeer(xs));
    VarintFieldTag(3, backoff);
    LenFieldLong(1, topic);
    ElementsShort(2, AllPeer(xs));
    at := base + |a|;
    t := Span(at - |topic|, topic);
    LenFieldFirst(1, topic, b + c, base);
    FieldsItems(2, AllPeer(xs), c, at);
    VarintFieldFirst(3, backoff, [], at + |b|);
    NothingItems(at + |b| + |c|);
    assert c + [] == c;
    assert [Number(3, backoff)] + [] == [Number(3, backoff)];
  }

  lemma LastNumber(m: Limits, cap: nat, x: PruneView, backoff: nat, peers: seq<PeerView>)
    ensures PruneFold(m, cap, [Number(3, backoff)], x, peers) == Ok((x.(backoff := backoff), peers))
  {
    assert [Number(3, backoff)][1..] == [];
    assert PruneFold(m, cap, [], x.(backoff := backoff), peers) == Ok((x.(backoff := backoff), peers));
  }

  lemma PxFolds(m: Limits, cap: nat, t: Span, ps: seq<Span>, vs: seq<PeerView>, backoff: nat, peers: seq<PeerView>)
    requires Decoded(m, ps, vs) && |peers| + |ps| <= cap
    ensures PruneFold(m, cap, [Text(1, t)] + (TextItems(2, ps) + [Number(3, backoff)]), NO_PRUNE, peers) ==
      Ok((NO_PRUNE.(topic := t, backoff := backoff), peers + vs))
  {
    hide TextItems, DecodePeer;
    var rest := TextItems(2, ps) + [Number(3, backoff)];
    var x := NO_PRUNE.(topic := t);
    assert ([Text(1, t)] + rest)[1..] == rest;
    PxFold(m, cap, ps, vs, [Number(3, backoff)], x, peers);
    LastNumber(m, cap, x, backoff, peers + vs);
  }

  /** A PRUNE that carries peers: topic, backoff, and the peers in order at the end of the shared table. */
  lemma PxReads(m: Limits, cap: nat, topic: seq<byte>, xs: seq<Peer>, backoff: nat, base: nat, peers: seq<PeerView>)
    returns (v: PruneView, more: seq<PeerView>)
    requires |PxBytes(topic, xs, backoff)| < Varint.LIMIT && backoff < Varint.LIMIT
    requires TopicFits(m, |topic|) && |xs| <= m.px && |peers| + |xs| <= cap
    requires forall i :: 0 <= i < |xs| ==> |xs[i].id| < Varint.LIMIT && |xs[i].record| < Varint.LIMIT
    requires forall i :: 0 <= i < |xs| ==> |xs[i].record| <= m.record
    ensures DecodePrune(m, cap, Span(base, PxBytes(topic, xs, backoff)), peers) == Ok((v, more))
    ensures v.topic.data == topic && v.backoff == backoff && v.peers.count == |xs|
    ensures xs != [] ==> v.peers.start == |peers|
    ensures |more| == |peers| + |xs| && peers <= more
    ensures forall i :: 0 <= i < |xs| ==> ShowsPeer(more[|peers| + i], xs[i])
  {
    hide ItemsOf, TextItems, SpansOf, PruneFold, PxBytes, DecodePeer;
    var t, at := PxItems(topic, xs, backoff, base);
    var vs := PeersDecode(m, xs, at);
    PxFolds(m, cap, t, SpansOf(2, AllPeer(xs), at), vs, backoff, peers);
    more := peers + vs;
    v := PruneView(t, backoff, Slice(if |xs| == 0 then 0 else |peers|, |xs|));
  }

  // --------------------------------------------------------------- what a peer's bytes mean

  /** Bytes written by the schema decode to the RPC they stand for. */
  lemma SchemaDecodes(v: Version, m: Limits, s: Storage, r: Rpc) returns (q: RpcView)
    requires FrameSize(v, m, r).Ok? && |RpcBytes(r)| < Varint.LIMIT && RpcRoom(s, r) && Backoffs(r.control)
    ensures DecodeFrame(v, m, s, Varint.Encode(|RpcBytes(r)|) + RpcBytes(r)) == Ok(q) && RpcShows(q, r)
  {
    hide DecodeFrame, RpcShows, RpcRoom, Backoffs, Varint.Encode, FrameSize, RpcBytes;
    BodyOnWire(r);
    FrameOnWire(r);
    q := FrameRoundTrip(v, m, s, r);
  }
}
