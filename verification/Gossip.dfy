/** Gossipsub RPCs: what the size pass computes and what the encode pass writes. */
module Gossip {
  import opened Bytes
  import opened GossipWire
  import Varint

  const MAX_TOPIC: nat := 256
  const MAX_MESSAGE_ID: nat := 128
  const MAX_RECORD: nat := 512

  datatype Version = V11 | V12 | Unknown

  datatype Limits = Limits(
    rpc: nat, data: nat, topic: nat, id: nat, record: nat, subs: nat, publish: nat,
    ihave: nat, iwant: nat, graft: nat, prune: nat, idontwant: nat, ids: nat, px: nat)

  /** gossipsub_limits_validate */
  predicate ValidLimits(m: Limits) {
    && m.rpc > 0 && m.data <= m.rpc && 0 < m.topic <= MAX_TOPIC && 0 < m.id <= MAX_MESSAGE_ID && m.record <= MAX_RECORD
    && m.subs > 0 && m.publish > 0 && m.ihave > 0 && m.iwant > 0 && m.graft > 0 && m.prune > 0 && m.idontwant > 0
    && m.ids > 0
  }

  // ------------------------------------------------------------------------------- RPCs

  datatype Sub = Sub(subscribe: nat, topic: seq<byte>)
  datatype Message = Message(
    from: seq<byte>, data: seq<byte>, seqno: seq<byte>, topic: seq<byte>, signature: seq<byte>, key: seq<byte>)
  type Ids = seq<seq<byte>>
  datatype IHave = IHave(topic: seq<byte>, ids: Ids)
  /** PX peers are decoded for observation only and never encoded, so a PRUNE to encode has none. */
  datatype Prune = Prune(topic: seq<byte>, backoff: nat)
  datatype Control = Control(
    ihave: seq<IHave>, iwant: seq<Ids>, graft: seq<seq<byte>>, prune: seq<Prune>, idontwant: seq<Ids>)
  datatype Rpc = Rpc(subs: seq<Sub>, publish: seq<Message>, control: Control)

  const NO_CONTROL := Control([], [], [], [], [])

  // --------------------------------------------------------------------------- encoding

  /** Absent and empty byte fields are not written. */
  function OptField(field: nat, data: seq<byte>): seq<byte> {
    if data == [] then [] else LenField(field, data)
  }

  function Flag(n: nat): nat { if n != 0 then 1 else 0 }

  function EncodeSub(s: Sub): seq<byte> {
    VarintField(1, Flag(s.subscribe)) + LenField(2, s.topic)
  }

  function EncodeMessage(m: Message): seq<byte> {
    OptField(1, m.from) + (OptField(2, m.data) + (OptField(3, m.seqno) + (LenField(4, m.topic) +
      (OptField(5, m.signature) + OptField(6, m.key)))))
  }

  /** The same field once for each element */
  function Fields(field: nat, list: seq<seq<byte>>): seq<byte> {
    if list == [] then [] else LenField(field, list[0]) + Fields(field, list[1..])
  }

  function EncodeIHave(h: IHave): seq<byte> { LenField(1, h.topic) + Fields(2, h.ids) }
  function EncodeIds(ids: Ids): seq<byte> { Fields(1, ids) }
  function EncodeGraft(topic: seq<byte>): seq<byte> { LenField(1, topic) }
  function EncodePrune(p: Prune): seq<byte> {
    LenField(1, p.topic) + (if p.backoff != 0 then VarintField(3, p.backoff) else [])
  }

  /** Anything that is written behind a key and a length of its own. */
  datatype Entry = SubEntry(sub: Sub) | MessageEntry(message: Message) | IHaveEntry(ihave: IHave) | IdsEntry(ids: Ids)
    | GraftEntry(topic: seq<byte>) | PruneEntry(prune: Prune)

  function EncodeEntry(e: Entry): seq<byte> {
    match e
    case SubEntry(x) => EncodeSub(x)
    case MessageEntry(x) => EncodeMessage(x)
    case IHaveEntry(x) => EncodeIHave(x)
    case IdsEntry(x) => EncodeIds(x)
    case GraftEntry(x) => EncodeGraft(x)
    case PruneEntry(x) => EncodePrune(x)
  }

  function EntryBytes(es: seq<Entry>): (r: seq<seq<byte>>)
    ensures |r| == |es| && forall i :: 0 <= i < |es| ==> r[i] == EncodeEntry(es[i])
  {
    seq(|es|, i requires 0 <= i < |es| => EncodeEntry(es[i]))
  }

  function Subs(xs: seq<Sub>): (r: seq<Entry>)
    ensures |r| == |xs| && forall i :: 0 <= i < |xs| ==> r[i] == SubEntry(xs[i])
  {
    seq(|xs|, i requires 0 <= i < |xs| => SubEntry(xs[i]))
  }

  function Messages(xs: seq<Message>): (r: seq<Entry>)
    ensures |r| == |xs| && forall i :: 0 <= i < |xs| ==> r[i] == MessageEntry(xs[i])
  {
    seq(|xs|, i requires 0 <= i < |xs| => MessageEntry(xs[i]))
  }

  function IHaves(xs: seq<IHave>): (r: seq<Entry>)
    ensures |r| == |xs| && forall i :: 0 <= i < |xs| ==> r[i] == IHaveEntry(xs[i])
  {
    seq(|xs|, i requires 0 <= i < |xs| => IHaveEntry(xs[i]))
  }

  function IdLists(xs: seq<Ids>): (r: seq<Entry>)
    ensures |r| == |xs| && forall i :: 0 <= i < |xs| ==> r[i] == IdsEntry(xs[i])
  {
    seq(|xs|, i requires 0 <= i < |xs| => IdsEntry(xs[i]))
  }

  function Grafts(xs: seq<seq<byte>>): (r: seq<Entry>)
    ensures |r| == |xs| && forall i :: 0 <= i < |xs| ==> r[i] == GraftEntry(xs[i])
  {
    seq(|xs|, i requires 0 <= i < |xs| => GraftEntry(xs[i]))
  }

  function Prunes(xs: seq<Prune>): (r: seq<Entry>)
    ensures |r| == |xs| && forall i :: 0 <= i < |xs| ==> r[i] == PruneEntry(xs[i])
  {
    seq(|xs|, i requires 0 <= i < |xs| => PruneEntry(xs[i]))
  }

  /** A run of entries of one field */
  function EntryFields(field: nat, es: seq<Entry>): seq<byte> { Fields(field, EntryBytes(es)) }

  /** gossipsub_control_encode */
  function EncodeControl(c: Control): seq<byte> {
    EntryFields(1, IHaves(c.ihave)) + (EntryFields(2, IdLists(c.iwant)) + (EntryFields(3, Grafts(c.graft)) +
      (EntryFields(4, Prunes(c.prune)) + EntryFields(5, IdLists(c.idontwant)))))
  }

  /** libp2p_gossipsub_rpc_body_encode: an empty control section is not written. */
  function EncodeBody(r: Rpc): seq<byte> {
    EntryFields(1, Subs(r.subs)) + (EntryFields(2, Messages(r.publish)) +
      (if r.control == NO_CONTROL then [] else LenField(3, EncodeControl(r.control))))
  }

  /** libp2p_gossipsub_rpc_frame_encode */
  function EncodeFrame(r: Rpc): seq<byte> {
    Varint.Encode(|EncodeBody(r)|) + EncodeBody(r)
  }

  // ----------------------------------------------------------------------------- sizing

  function OptSize(field: nat, n: nat): nat { if n == 0 then 0 else LenFieldSize(field, n) }

  function TopicFits(m: Limits, n: nat): bool { 0 < n <= m.topic }

  /** gossipsub_message_size */
  function MessageSize(m: Limits, x: Message): Result<nat> {
    if !TopicFits(m, |x.topic|) || |x.data| > m.data then Bad(Limit)
    else Ok(OptSize(1, |x.from|) + OptSize(2, |x.data|) + OptSize(3, |x.seqno|) + LenFieldSize(4, |x.topic|)
            + OptSize(5, |x.signature|) + OptSize(6, |x.key|))
  }

  /** gossipsub_sub_size */
  function SubSize(m: Limits, s: Sub): Result<nat> {
    if !TopicFits(m, |s.topic|) then Bad(Limit)
      else Ok(VarintFieldSize(1, Flag(s.subscribe)) + LenFieldSize(2, |s.topic|))
  }

  /** gossipsub_message_id_list_size */
  function IdsSize(m: Limits, field: nat, ids: Ids, total: nat): Result<nat> {
    if |ids| > m.ids then Bad(Limit) else EachIdSize(m, field, ids, total)
  }

  function EachIdSize(m: Limits, field: nat, ids: Ids, total: nat): Result<nat> {
    if ids == [] then Ok(total)
    else if !(0 < |ids[0]| <= m.id) then Bad(Limit)
    else EachIdSize(m, field, ids[1..], total + LenFieldSize(field, |ids[0]|))
  }

  function IHaveSize(m: Limits, h: IHave): Result<nat> {
    if !TopicFits(m, |h.topic|) then Bad(Limit) else IdsSize(m, 2, h.ids, LenFieldSize(1, |h.topic|))
  }

  function GraftSize(m: Limits, t: seq<byte>): Result<nat> {
    if !TopicFits(m, |t|) then Bad(Limit) else Ok(LenFieldSize(1, |t|))
  }

  function PruneSize(m: Limits, p: Prune): Result<nat> {
    if !TopicFits(m, |p.topic|) then Bad(Limit)
    else Ok(LenFieldSize(1, |p.topic|) + if p.backoff != 0 then VarintFieldSize(3, p.backoff) else 0)
  }

  /** Sizes of nested messages, each behind its own key and length; the first that fails decides. */
  function SumSizes(field: nat, sizes: seq<Result<nat>>, total: nat): Result<nat> {
    if sizes == [] then Ok(total)
    else if sizes[0].Bad? then sizes[0]
    else SumSizes(field, sizes[1..], total + LenFieldSize(field, sizes[0].value))
  }

  function Then(r: Result<nat>, m: Limits, field: nat, es: seq<Entry>): Result<nat> {
    if r.Bad? then r else SumSizes(field, EntrySizes(m, es), r.value)
  }

  function EntrySize(m: Limits, e: Entry): Result<nat> {
    match e
    case SubEntry(x) => SubSize(m, x)
    case MessageEntry(x) => MessageSize(m, x)
    case IHaveEntry(x) => IHaveSize(m, x)
    case IdsEntry(x) => IdsSize(m, 1, x, 0)
    case GraftEntry(x) => GraftSize(m, x)
    case PruneEntry(x) => PruneSize(m, x)
  }

  function EntrySizes(m: Limits, es: seq<Entry>): (r: seq<Result<nat>>)
    ensures |r| == |es| && forall i :: 0 <= i < |es| ==> r[i] == EntrySize(m, es[i])
  {
    seq(|es|, i requires 0 <= i < |es| => EntrySize(m, es[i]))
  }

  /** gossipsub_control_size */
  function ControlSize(v: Version, m: Limits, c: Control): Result<nat> {
    if |c.ihave| > m.ihave || |c.iwant| > m.iwant || |c.graft| > m.graft || |c.prune| > m.prune
      || |c.idontwant| > m.idontwant
    then Bad(Limit)
    else if c.idontwant != [] && v != V12 then Bad(UnsupportedVersion)
    else
      var r1 := Then(Ok(0), m, 1, IHaves(c.ihave));
      var r2 := Then(r1, m, 2, IdLists(c.iwant));
      var r3 := Then(r2, m, 3, Grafts(c.graft));
      var r4 := Then(r3, m, 4, Prunes(c.prune));
      Then(r4, m, 5, IdLists(c.idontwant))
  }

  /** libp2p_gossipsub_rpc_body_size */
  function BodySize(v: Version, m: Limits, r: Rpc): Result<nat> {
    if v == Unknown then Bad(UnsupportedVersion)
    else if !ValidLimits(m) then Bad(Limit)
    else if |r.subs| > m.subs || |r.publish| > m.publish then Bad(Limit)
    else
      var r1 := Then(Ok(0), m, 1, Subs(r.subs));
      var r2 := Then(r1, m, 2, Messages(r.publish));
      var r3 := if r2.Bad? || r.control == NO_CONTROL then r2
        else SumSizes(3, [ControlSize(v, m, r.control)], r2.value);
      if r3.Ok? && r3.value > m.rpc then Bad(Limit) else r3
  }

  /** libp2p_gossipsub_rpc_frame_size */
  function FrameSize(v: Version, m: Limits, r: Rpc): Result<nat> {
    match BodySize(v, m, r)
    case Bad(e) => Bad(e)
    case Ok(n) => Ok(Varint.Size(n) + n)
  }

  // ------------------------------------------------------------- the passes agree

  lemma OptFieldSize(field: nat, data: seq<byte>)
    ensures |OptField(field, data)| == OptSize(field, |data|)
  {
  }

  lemma MessageSizeExact(m: Limits, x: Message)
    requires MessageSize(m, x).Ok?
    ensures MessageSize(m, x).value == |EncodeMessage(x)|
  {
    hide OptField, OptSize, Varint.Encode;
    OptFieldSize(1, x.from);
    OptFieldSize(2, x.data);
    OptFieldSize(3, x.seqno);
    OptFieldSize(5, x.signature);
    OptFieldSize(6, x.key);
  }

  lemma {:induction false} IdsSizeExact(m: Limits, field: nat, ids: Ids, total: nat)
    requires EachIdSize(m, field, ids, total).Ok?
    ensures EachIdSize(m, field, ids, total).value == total + |Fields(field, ids)|
  {
    if ids != [] {
      IdsSizeExact(m, field, ids[1..], total + LenFieldSize(field, |ids[0]|));
      hide Varint.Encode;
    }
  }

  /** The sizes add up to the length of the fields they are the sizes of. */
  lemma {:induction false} SumSizesExact(field: nat, sizes: seq<Result<nat>>, list: seq<seq<byte>>, total: nat)
    requires SumSizes(field, sizes, total).Ok? && |sizes| == |list|
    requires forall i :: 0 <= i < |sizes| && sizes[i].Ok? ==> sizes[i].value == |list[i]|
    ensures SumSizes(field, sizes, total).value == total + |Fields(field, list)|
    ensures forall i :: 0 <= i < |sizes| ==> sizes[i].Ok?
    decreases |sizes|
  {
    if sizes != [] {
      var n := total + LenFieldSize(field, sizes[0].value);
      SumSizesExact(field, sizes[1..], list[1..], n);
      assert forall i :: 1 <= i < |sizes| ==> sizes[i] == sizes[1..][i - 1];
      hide Varint.Encode;
    }
  }

  /** The size pass accepts the entry, and reports the length of its encoding. */
  predicate EntryOk(m: Limits, e: Entry) { EntrySize(m, e).Ok? && EntrySize(m, e).value == |EncodeEntry(e)| }

  predicate AllOk(m: Limits, es: seq<Entry>) { forall i :: 0 <= i < |es| ==> EntryOk(m, es[i]) }

  lemma EntryExact(m: Limits, e: Entry)
    ensures EntrySize(m, e).Ok? ==> EntryOk(m, e)
  {
    match e
    case MessageEntry(x) => if MessageSize(m, x).Ok? { MessageExact(m, x); }
    case IHaveEntry(x) => IHaveExact(m, x);
    case IdsEntry(x) => IdsExact(m, x);
    case _ => SmallExact(m, e);
  }

  lemma MessageExact(m: Limits, x: Message)
    requires MessageSize(m, x).Ok?
    ensures EntryOk(m, MessageEntry(x))
  {
    hide EncodeMessage, MessageSize;
    MessageSizeExact(m, x);
  }

  lemma IHaveExact(m: Limits, h: IHave)
    ensures IHaveSize(m, h).Ok? ==> EntryOk(m, IHaveEntry(h))
  {
    hide Varint.Encode, EachIdSize, Fields;
    if IHaveSize(m, h).Ok? { IdsSizeExact(m, 2, h.ids, LenFieldSize(1, |h.topic|)); }
  }

  lemma IdsExact(m: Limits, ids: Ids)
    ensures IdsSize(m, 1, ids, 0).Ok? ==> EntryOk(m, IdsEntry(ids))
  {
    hide Varint.Encode, EachIdSize, Fields;
    if IdsSize(m, 1, ids, 0).Ok? { IdsSizeExact(m, 1, ids, 0); }
  }

  lemma SmallExact(m: Limits, e: Entry)
    requires e.SubEntry? || e.GraftEntry? || e.PruneEntry?
    ensures EntrySize(m, e).Ok? ==> EntryOk(m, e)
  {
    hide Varint.Encode;
  }

  /** A run of entries: the sizes add up to the bytes. */
  lemma EntriesExact(m: Limits, field: nat, es: seq<Entry>, total: nat)
    requires SumSizes(field, EntrySizes(m, es), total).Ok?
    ensures SumSizes(field, EntrySizes(m, es), total).value == total + |EntryFields(field, es)| && AllOk(m, es)
  {
    hide EntrySize, EncodeEntry, Fields, EntryBytes, EntrySizes;
    forall i | 0 <= i < |es| ensures EntrySize(m, es[i]).Ok? ==> EntryOk(m, es[i]) { EntryExact(m, es[i]); }
    SumSizesExact(field, EntrySizes(m, es), EntryBytes(es), total);
  }

  predicate ControlFits(m: Limits, c: Control) {
    && AllOk(m, IHaves(c.ihave)) && AllOk(m, IdLists(c.iwant)) && AllOk(m, Grafts(c.graft))
    && AllOk(m, Prunes(c.prune)) && AllOk(m, IdLists(c.idontwant))
    && |c.ihave| <= m.ihave && |c.iwant| <= m.iwant && |c.graft| <= m.graft && |c.prune| <= m.prune
    && |c.idontwant| <= m.idontwant
  }

  /** gossipsub_control_encode writes exactly what gossipsub_control_size reports. */
  lemma ControlExact(v: Version, m: Limits, c: Control)
    requires ControlSize(v, m, c).Ok?
    ensures ControlSize(v, m, c).value == |EncodeControl(c)| && ControlFits(m, c)
  {
    hide SumSizes, EntryFields, EntrySizes, AllOk, IHaves, IdLists, Grafts, Prunes;
    var r1 := SumSizes(1, EntrySizes(m, IHaves(c.ihave)), 0);
    EntriesExact(m, 1, IHaves(c.ihave), 0);
    var r2 := SumSizes(2, EntrySizes(m, IdLists(c.iwant)), r1.value);
    EntriesExact(m, 2, IdLists(c.iwant), r1.value);
    var r3 := SumSizes(3, EntrySizes(m, Grafts(c.graft)), r2.value);
    EntriesExact(m, 3, Grafts(c.graft), r2.value);
    var r4 := SumSizes(4, EntrySizes(m, Prunes(c.prune)), r3.value);
    EntriesExact(m, 4, Prunes(c.prune), r3.value);
    EntriesExact(m, 5, IdLists(c.idontwant), r4.value);
  }

  predicate RpcFits(m: Limits, r: Rpc) {
    && AllOk(m, Subs(r.subs)) && AllOk(m, Messages(r.publish))
    && |r.subs| <= m.subs && |r.publish| <= m.publish && ControlFits(m, r.control) && |EncodeBody(r)| <= m.rpc
  }

  /** The encode pass writes exactly the byte count that the size pass reports. */
  lemma BodyExact(v: Version, m: Limits, r: Rpc)
    requires BodySize(v, m, r).Ok?
    ensures BodySize(v, m, r).value == |EncodeBody(r)| && RpcFits(m, r)
  {
    hide SumSizes, EntryFields, EntrySizes, AllOk, Subs, Messages, EncodeControl, ControlSize;
    var r1 := SumSizes(1, EntrySizes(m, Subs(r.subs)), 0);
    EntriesExact(m, 1, Subs(r.subs), 0);
    var r2 := SumSizes(2, EntrySizes(m, Messages(r.publish)), r1.value);
    EntriesExact(m, 2, Messages(r.publish), r1.value);
    if r.control != NO_CONTROL { ControlPart(v, m, r.control, r2.value); } else { NoControlFits(m); }
  }

  lemma NoControlFits(m: Limits)
    ensures ControlFits(m, NO_CONTROL)
  {
  }

  lemma ControlPart(v: Version, m: Limits, c: Control, total: nat)
    requires SumSizes(3, [ControlSize(v, m, c)], total).Ok?
    ensures ControlSize(v, m, c).Ok? && ControlFits(m, c)
    ensures SumSizes(3, [ControlSize(v, m, c)], total).value == total + |LenField(3, EncodeControl(c))|
  {
    hide ControlSize, EncodeControl, ControlFits, Varint.Encode;
    var r := ControlSize(v, m, c);
    var one: seq<Result<nat>> := [r];
    assert |one[1..]| == 0;
    if r.Ok? { ControlExact(v, m, c); }
  }

  lemma FrameExact(v: Version, m: Limits, r: Rpc)
    requires FrameSize(v, m, r).Ok?
    ensures FrameSize(v, m, r).value == |EncodeFrame(r)|
  {
    hide BodySize, EncodeBody, Varint.Encode;
    BodyExact(v, m, r);
  }
}
