/** Decoding into the caller's arrays: counts, a shared message-id table and a shared peer table, moved in place. */
module GossipTables {
  import opened Bytes
  import opened GossipWire
  import opened Gossip
  import opened GossipDecode
  import Varint

  /** One field off the front of what is left, by the varint loop (gossipsub_read_len_span, gossipsub_skip_field) */
  method ReadItem(s: seq<byte>, base: nat) returns (r: Next)
    ensures r == NextItem(s, base)
  {
    hide Varint.Decode;
    var k := Varint.DecodeLoop(s);
    if !k.Ok? { return NoKey(VarintError(k)); }
    if k.read > |s| { return NoKey(Truncated); }
    var field, wire := k.value / 8 % 0x1_0000_0000, k.value % 8;
    var t := s[k.read..];
    if wire == FIXED64 {
      return if |t| < 8 then NoPayload(Truncated, field, wire) else Got(Fixed(field), k.read + 8);
    }
    if wire == FIXED32 {
      return if |t| < 4 then NoPayload(Truncated, field, wire) else Got(Fixed(field), k.read + 4);
    }
    if wire != VARINT && wire != LEN { return NoPayload(Malformed, field, wire); }
    var v := Varint.DecodeLoop(t);
    if !v.Ok? { return NoPayload(VarintError(v), field, wire); }
    if wire == VARINT { return Got(Number(field, v.value), k.read + v.read); }
    if v.read + v.value > |t| { return NoPayload(Truncated, field, wire); }
    r := Got(Text(field, Span(base + k.read + v.read, t[v.read..v.read + v.value])), k.read + v.read + v.value);
  }

  lemma ItemsUnfold(s: seq<byte>, base: nat)
    requires s != []
    ensures NextItem(s, base).NoKey? ==> ItemsOf(s, base) == Items([], BadKey(NextItem(s, base).error))
    ensures NextItem(s, base).NoPayload? ==>
      ItemsOf(s, base) == Items([],
        BadPayload(NextItem(s, base).error, NextItem(s, base).field, NextItem(s, base).wire))
    ensures NextItem(s, base).Got? ==>
      var n := NextItem(s, base).read;
      1 <= n <= |s| && ItemsOf(s, base) == Prefixed(NextItem(s, base).item, ItemsOf(s[n..], base + n))
  {
    hide NextItem;
    if NextItem(s, base).Got? { ItemConsumes(s, base); }
  }

  lemma NoItemsLeft(base: nat)
    ensures ItemsOf([], base) == Items([], Clean)
  {
  }

  lemma TailOf(i: Item, rest: seq<Item>)
    ensures ([i] + rest)[0] == i && ([i] + rest)[1..] == rest
  {
  }

  // ------------------------------------------------------------------- small messages

  function SubDone(x: SubView): Result<SubView> { if x.topic.data == [] then Bad(Malformed) else Ok(x) }

  ghost function SubLeft(m: Limits, s: seq<byte>, base: nat, x: SubView): Result<SubView> {
    var it := ItemsOf(s, base);
    match SubFold(m, it.list, x)
    case Bad(e) => Bad(e)
    case Ok(y) => if EndError(it.end).Some? then Bad(EndError(it.end).value) else SubDone(y)
  }

  lemma SubStep(m: Limits, s: seq<byte>, base: nat, x: SubView)
    ensures s == [] ==> SubLeft(m, s, base, x) == SubDone(x)
    ensures s != [] ==>
      match NextItem(s, base)
      case NoKey(e) => SubLeft(m, s, base, x) == Bad(e)
      case NoPayload(e, _, _) => SubLeft(m, s, base, x) == Bad(e)
      case Got(i, n) =>
        1 <= n <= |s| && SubLeft(m, s, base, x) ==
          (if i.Number? && i.field == 1 then SubLeft(m, s[n..], base + n, x.(subscribe := Flag(i.value)))
           else if i.Text? && i.field == 2 then
             if |i.span.data| > m.topic then Bad(Limit) else SubLeft(m, s[n..], base + n, x.(topic := i.span))
           else SubLeft(m, s[n..], base + n, x))
  {
    hide NextItem, ItemsOf;
    NoItemsLeft(base);
    if s != [] {
      ItemsUnfold(s, base);
      if NextItem(s, base).Got? {
        var i, n := NextItem(s, base).item, NextItem(s, base).read;
        TailOf(i, ItemsOf(s[n..], base + n).list);
      }
    }
  }

  /** gossipsub_sub_decode */
  method ReadSub(m: Limits, p: Span) returns (r: Result<SubView>)
    ensures r == DecodeSub(m, p)
  {
    hide NextItem, ItemsOf;
    var x: SubView, pos := NO_SUB, 0;
    assert p.data[0..] == p.data;
    while pos < |p.data|
      invariant 0 <= pos <= |p.data| && SubLeft(m, p.data[pos..], p.start + pos, x) == DecodeSub(m, p)
      decreases |p.data| - pos
    {
      hide NextItem, SubLeft;
      var s := p.data[pos..];
      SubStep(m, s, p.start + pos, x);
      var next := ReadItem(s, p.start + pos);
      if next.NoKey? || next.NoPayload? { return Bad(next.error); }
      var i := next.item;
      if i.Number? && i.field == 1 {
        x := x.(subscribe := Flag(i.value));
      } else if i.Text? && i.field == 2 {
        if |i.span.data| > m.topic { return Bad(Limit); }
        x := x.(topic := i.span);
      }
      assert p.data[pos + next.read..] == s[next.read..];
      pos := pos + next.read;
    }
    assert p.data[pos..] == [];
    SubStep(m, [], p.start + pos, x);
    r := SubDone(x);
  }

  function MessageDone(x: MessageView): Result<MessageView> { if x.topic.data == [] then Bad(Malformed) else Ok(x) }

  ghost function MessageLeft(m: Limits, s: seq<byte>, base: nat, x: MessageView): Result<MessageView> {
    var it := ItemsOf(s, base);
    match MessageFold(m, it.list, x)
    case Bad(e) => Bad(e)
    case Ok(y) => if EndError(it.end).Some? then Bad(EndError(it.end).value) else MessageDone(y)
  }

  lemma MessageStep(m: Limits, s: seq<byte>, base: nat, x: MessageView)
    ensures s == [] ==> MessageLeft(m, s, base, x) == MessageDone(x)
    ensures s != [] ==>
      match NextItem(s, base)
      case NoKey(e) => MessageLeft(m, s, base, x) == Bad(e)
      case NoPayload(e, _, _) => MessageLeft(m, s, base, x) == Bad(e)
      case Got(i, n) =>
        1 <= n <= |s| && MessageLeft(m, s, base, x) ==
          (if !i.Text? then MessageLeft(m, s[n..], base + n, x)
           else if (i.field == 2 && |i.span.data| > m.data) || (i.field == 4 && |i.span.data| > m.topic) then Bad(Limit)
           else MessageLeft(m, s[n..], base + n, SetField(x, i.field, i.span)))
  {
    hide NextItem, ItemsOf, SetField;
    NoItemsLeft(base);
    if s != [] {
      ItemsUnfold(s, base);
      if NextItem(s, base).Got? {
        var i, n := NextItem(s, base).item, NextItem(s, base).read;
        TailOf(i, ItemsOf(s[n..], base + n).list);
      }
    }
  }

  /** gossipsub_message_decode */
  method ReadMessage(m: Limits, p: Span) returns (r: Result<MessageView>)
    ensures r == DecodeMessage(m, p)
  {
    hide NextItem, ItemsOf;
    var x: MessageView, pos := NO_MESSAGE, 0;
    assert p.data[0..] == p.data;
    while pos < |p.data|
      invariant 0 <= pos <= |p.data| && MessageLeft(m, p.data[pos..], p.start + pos, x) == DecodeMessage(m, p)
      decreases |p.data| - pos
    {
      hide NextItem, MessageLeft;
      var s := p.data[pos..];
      MessageStep(m, s, p.start + pos, x);
      var next := ReadItem(s, p.start + pos);
      if next.NoKey? || next.NoPayload? { return Bad(next.error); }
      var i := next.item;
      if i.Text? {
        if (i.field == 2 && |i.span.data| > m.data) || (i.field == 4 && |i.span.data| > m.topic) { return Bad(Limit); }
        x := SetField(x, i.field, i.span);
      }
      assert p.data[pos + next.read..] == s[next.read..];
      pos := pos + next.read;
    }
    assert p.data[pos..] == [];
    MessageStep(m, [], p.start + pos, x);
    r := MessageDone(x);
  }

  ghost function GraftLeft(m: Limits, s: seq<byte>, base: nat, topic: Span): Result<Span> {
    var it := ItemsOf(s, base);
    var t := TopicFold(it.list, topic);
    if EndError(it.end).Some? then Bad(EndError(it.end).value) else if !TopicFits(m, |t.data|) then Bad(Limit)
      else Ok(t)
  }

  lemma GraftStep(m: Limits, s: seq<byte>, base: nat, topic: Span)
    ensures s == [] ==> GraftLeft(m, s, base, topic) == if TopicFits(m, |topic.data|) then Ok(topic) else Bad(Limit)
    ensures s != [] ==>
      match NextItem(s, base)
      case NoKey(e) => GraftLeft(m, s, base, topic) == Bad(e)
      case NoPayload(e, _, _) => GraftLeft(m, s, base, topic) == Bad(e)
      case Got(i, n) =>
        1 <= n <= |s| && GraftLeft(m, s, base, topic) ==
          GraftLeft(m, s[n..], base + n, if i.Text? && i.field == 1 then i.span else topic)
  {
    hide NextItem, ItemsOf;
    NoItemsLeft(base);
    if s != [] {
      ItemsUnfold(s, base);
      if NextItem(s, base).Got? {
        var i, n := NextItem(s, base).item, NextItem(s, base).read;
        TailOf(i, ItemsOf(s[n..], base + n).list);
      }
    }
  }

  /** gossipsub_graft_decode */
  method ReadGraft(m: Limits, p: Span) returns (r: Result<Span>)
    ensures r == DecodeGraft(m, p)
  {
    hide NextItem, ItemsOf;
    var topic: Span, pos := NO_SPAN, 0;
    assert p.data[0..] == p.data;
    while pos < |p.data|
      invariant 0 <= pos <= |p.data| && GraftLeft(m, p.data[pos..], p.start + pos, topic) == DecodeGraft(m, p)
      decreases |p.data| - pos
    {
      hide NextItem, GraftLeft;
      var s := p.data[pos..];
      GraftStep(m, s, p.start + pos, topic);
      var next := ReadItem(s, p.start + pos);
      if next.NoKey? || next.NoPayload? { return Bad(next.error); }
      var i := next.item;
      if i.Text? && i.field == 1 { topic := i.span; }
      assert p.data[pos + next.read..] == s[next.read..];
      pos := pos + next.read;
    }
    assert p.data[pos..] == [];
    GraftStep(m, [], p.start + pos, topic);
    r := if TopicFits(m, |topic.data|) then Ok(topic) else Bad(Limit);
  }

  ghost function PeerLeft(m: Limits, s: seq<byte>, base: nat, x: PeerView): Result<PeerView> {
    var it := ItemsOf(s, base);
    match PeerFold(m, it.list, x)
    case Bad(e) => Bad(e)
    case Ok(y) => if EndError(it.end).Some? then Bad(EndError(it.end).value) else Ok(y)
  }

  lemma PeerStep(m: Limits, s: seq<byte>, base: nat, x: PeerView)
    ensures s == [] ==> PeerLeft(m, s, base, x) == Ok(x)
    ensures s != [] ==>
      match NextItem(s, base)
      case NoKey(e) => PeerLeft(m, s, base, x) == Bad(e)
      case NoPayload(e, _, _) => PeerLeft(m, s, base, x) == Bad(e)
      case Got(i, n) =>
        1 <= n <= |s| && PeerLeft(m, s, base, x) ==
          (if i.Text? && i.field == 1 then PeerLeft(m, s[n..], base + n, x.(id := i.span))
           else if i.Text? && i.field == 2 then
             if |i.span.data| > m.record then Bad(Limit) else PeerLeft(m, s[n..], base + n, x.(record := i.span))
           else PeerLeft(m, s[n..], base + n, x))
  {
    hide NextItem, ItemsOf;
    NoItemsLeft(base);
    if s != [] {
      ItemsUnfold(s, base);
      if NextItem(s, base).Got? {
        var i, n := NextItem(s, base).item, NextItem(s, base).read;
        TailOf(i, ItemsOf(s[n..], base + n).list);
      }
    }
  }

  /** gossipsub_peer_info_decode */
  method ReadPeer(m: Limits, p: Span) returns (r: Result<PeerView>)
    ensures r == DecodePeer(m, p)
  {
    hide NextItem, ItemsOf;
    var x: PeerView, pos := NO_PEER, 0;
    assert p.data[0..] == p.data;
    while pos < |p.data|
      invariant 0 <= pos <= |p.data| && PeerLeft(m, p.data[pos..], p.start + pos, x) == DecodePeer(m, p)
      decreases |p.data| - pos
    {
      hide NextItem, PeerLeft;
      var s := p.data[pos..];
      PeerStep(m, s, p.start + pos, x);
      var next := ReadItem(s, p.start + pos);
      if next.NoKey? || next.NoPayload? { return Bad(next.error); }
      var i := next.item;
      if i.Text? && i.field == 1 {
        x := x.(id := i.span);
      } else if i.Text? && i.field == 2 {
        if |i.span.data| > m.record { return Bad(Limit); }
        x := x.(record := i.span);
      }
      assert p.data[pos + next.read..] == s[next.read..];
      pos := pos + next.read;
    }
    assert p.data[pos..] == [];
    PeerStep(m, [], p.start + pos, x);
    r := Ok(x);
  }

  // ---------------------------------------------------------------------- message ids

  /** The verdict of DecodeIds when `s` is what is left of the entry and `ids` the table so far. */
  ghost function IdsLeft(m: Limits, cap: nat, field: nat, s: seq<byte>, base: nat, ids: seq<Span>): Result<seq<Span>> {
    DecodeIds(m, cap, field, Span(base, s), ids)
  }

  lemma IdsStep(m: Limits, cap: nat, field: nat, s: seq<byte>, base: nat, ids: seq<Span>)
    ensures s == [] ==> IdsLeft(m, cap, field, s, base, ids) == Ok(ids)
    ensures s != [] ==>
      match NextItem(s, base)
      case NoKey(e) => IdsLeft(m, cap, field, s, base, ids) == Bad(e)
      case NoPayload(e, f, w) =>
        IdsLeft(m, cap, field, s, base, ids) == if f == field && w == LEN && |ids| >= cap then Bad(Limit) else Bad(e)
      case Got(i, n) =>
        && 1 <= n <= |s|
        && (if i.Text? && i.field == field then
              if |ids| >= cap || |i.span.data| > m.id then IdsLeft(m, cap, field, s, base, ids) == Bad(Limit)
              else IdsLeft(m, cap, field, s, base, ids) == IdsLeft(m, cap, field, s[n..], base + n, ids + [i.span])
            else IdsLeft(m, cap, field, s, base, ids) == IdsLeft(m, cap, field, s[n..], base + n, ids))
  {
    hide NextItem, ItemsOf;
    NoItemsLeft(base);
    if s != [] {
      ItemsUnfold(s, base);
      if NextItem(s, base).Got? {
        var i, n := NextItem(s, base).item, NextItem(s, base).read;
        TailOf(i, ItemsOf(s[n..], base + n).list);
      }
    }
  }

  /** The last topic in what is left, or the one found so far. */
  ghost function TopicLeft(s: seq<byte>, base: nat, topic: Span): Span {
    TopicFold(ItemsOf(s, base).list, topic)
  }

  lemma TopicStep(s: seq<byte>, base: nat, topic: Span)
    ensures s == [] ==> TopicLeft(s, base, topic) == topic
    ensures s != [] && NextItem(s, base).Got? ==>
      var i, n := NextItem(s, base).item, NextItem(s, base).read;
      n <= |s| && TopicLeft(s, base, topic) ==
        TopicLeft(s[n..], base + n, if i.Text? && i.field == 1 then i.span else topic)
  {
    hide NextItem, ItemsOf;
    NoItemsLeft(base);
    if s != [] {
      ItemsUnfold(s, base);
      if NextItem(s, base).Got? {
        var i, n := NextItem(s, base).item, NextItem(s, base).read;
        TailOf(i, ItemsOf(s[n..], base + n).list);
      }
    }
  }

  // ------------------------------------------------------------------------------ PRUNE

  /** How gossipsub_prune_decode ends when the peer table held `before` entries at its start. */
  function PruneDone(m: Limits, x: PruneView, n: nat, before: nat): Result<PruneView> {
    var count := if n >= before then n - before else 0;
    if !TopicFits(m, |x.topic.data|) || count > m.px then Bad(Limit)
    else Ok(x.(peers := Slice(if count == 0 then 0 else before, count)))
  }

  ghost function PruneLeft(m: Limits, cap: nat, s: seq<byte>, base: nat, x: PruneView, peers: seq<PeerView>,
                           before: nat)
    : Result<(PruneView, seq<PeerView>)>
  {
    var it := ItemsOf(s, base);
    match PruneFold(m, cap, it.list, x, peers)
    case Bad(e) => Bad(e)
    case Ok((y, more)) =>
      if it.end.BadPayload? && it.end.field == 2 && it.end.wire == LEN && |more| >= cap then Bad(Limit)
      else if EndError(it.end).Some? then Bad(EndError(it.end).value)
      else
        match PruneDone(m, y, |more|, before)
        case Bad(e) => Bad(e)
        case Ok(z) => Ok((z, more))
  }

  lemma PruneStarts(m: Limits, cap: nat, p: Span, peers: seq<PeerView>)
    ensures PruneLeft(m, cap, p.data, p.start, PruneView(NO_SPAN, 0, Slice(0, 0)), peers, |peers|) ==
      DecodePrune(m, cap, p, peers)
  {
    hide ItemsOf, PruneFold;
  }

  lemma PruneStep(m: Limits, cap: nat, s: seq<byte>, base: nat, x: PruneView, peers: seq<PeerView>, before: nat)
    ensures s == [] ==>
      match PruneDone(m, x, |peers|, before)
      case Bad(e) => PruneLeft(m, cap, s, base, x, peers, before) == Bad(e)
      case Ok(z) => PruneLeft(m, cap, s, base, x, peers, before) == Ok((z, peers))
    ensures s != [] ==>
      match NextItem(s, base)
      case NoKey(e) => PruneLeft(m, cap, s, base, x, peers, before) == Bad(e)
      case NoPayload(e, f, w) =>
        PruneLeft(m, cap, s, base, x, peers, before) == if f == 2 && w == LEN && |peers| >= cap then Bad(Limit)
          else Bad(e)
      case Got(i, n) =>
        1 <= n <= |s| && PruneLeft(m, cap, s, base, x, peers, before) ==
          (if i.Text? && i.field == 1 then PruneLeft(m, cap, s[n..], base + n, x.(topic := i.span), peers, before)
           else if i.Text? && i.field == 2 then
             if |peers| >= cap then Bad(Limit)
             else if DecodePeer(m, i.span).Bad? then Bad(DecodePeer(m, i.span).error)
             else PruneLeft(m, cap, s[n..], base + n, x, peers + [DecodePeer(m, i.span).value], before)
           else if i.Number? && i.field == 3
             then PruneLeft(m, cap, s[n..], base + n, x.(backoff := i.value), peers, before)
           else PruneLeft(m, cap, s[n..], base + n, x, peers, before))
  {
    hide NextItem, ItemsOf, DecodePeer, PruneDone;
    NoItemsLeft(base);
    if s != [] {
      ItemsUnfold(s, base);
      if NextItem(s, base).Got? {
        var i, n := NextItem(s, base).item, NextItem(s, base).read;
        TailOf(i, ItemsOf(s[n..], base + n).list);
      }
    }
  }

  // -------------------------------------------------------------------- the loop itself

  /** The verdict on a control section when `s` is what is left of it and `c` was decoded so far. */
  ghost function ControlLeft(m: Limits, caps: Storage, s: seq<byte>, base: nat, c: ControlView): Result<ControlView> {
    var it := ItemsOf(s, base);
    match ControlFold(m, caps, it.list, c)
    case Bad(e) => Bad(e)
    case Ok(d) =>
      if EndError(it.end).Some? then Bad(EndError(it.end).value)
      else if !ControlCounts(m, d) then Bad(Limit)
      else Ok(d)
  }

  lemma ControlLeftStep(m: Limits, caps: Storage, s: seq<byte>, base: nat, c: ControlView)
    ensures s == [] ==> ControlLeft(m, caps, s, base, c) == if ControlCounts(m, c) then Ok(c) else Bad(Limit)
    ensures s != [] ==>
      match NextItem(s, base)
      case NoKey(e) => ControlLeft(m, caps, s, base, c) == Bad(e)
      case NoPayload(e, _, _) => ControlLeft(m, caps, s, base, c) == Bad(e)
      case Got(i, n) =>
        && 1 <= n <= |s|
        && match ControlStep(m, caps, c, i)
           case Bad(e) => ControlLeft(m, caps, s, base, c) == Bad(e)
           case Ok(d) => ControlLeft(m, caps, s, base, c) == ControlLeft(m, caps, s[n..], base + n, d)
  {
    hide NextItem, ItemsOf, ControlStep, ControlCounts;
    NoItemsLeft(base);
    if s != [] {
      ItemsUnfold(s, base);
      if NextItem(s, base).Got? {
        var i, n := NextItem(s, base).item, NextItem(s, base).read;
        TailOf(i, ItemsOf(s[n..], base + n).list);
      }
    }
  }

  class ControlTables {
    const ihave: array<IHaveView>
    const iwant: array<Slice>
    const graft: array<Span>
    const prune: array<PruneView>
    const idontwant: array<Slice>
    const ids: array<Span>
    const peers: array<PeerView>
    /** The capacities that the caller gave, those of the arrays above among them. */
    const storage: Storage
    var ihaveCount: nat
    var iwantCount: nat
    var graftCount: nat
    var pruneCount: nat
    var idontwantCount: nat
    var idNext: nat
    var peerNext: nat
    /** Which entry got which slice of the id table. */
    ghost var order: seq<Placed>

    ghost predicate Valid() reads this {
      && ihaveCount <= ihave.Length && iwantCount <= iwant.Length && graftCount <= graft.Length
      && pruneCount <= prune.Length && idontwantCount <= idontwant.Length
      && idNext <= ids.Length && peerNext <= peers.Length
      && iwant != idontwant && graft != ids
      && storage == Storage(storage.subs, storage.publish, ihave.Length, iwant.Length, graft.Length, prune.Length,
                            idontwant.Length, ids.Length, peers.Length)
    }

    ghost function View(): ControlView
      reads this, ihave, iwant, graft, prune, idontwant, ids, peers
      requires Valid()
    {
      ControlView(ihave[..ihaveCount], iwant[..iwantCount], graft[..graftCount], prune[..pruneCount],
                  idontwant[..idontwantCount], ids[..idNext], peers[..peerNext], order)
    }

    constructor (storage: Storage)
      ensures Valid() && View() == NO_CONTROL_VIEW
      ensures fresh(ihave) && fresh(iwant) && fresh(graft)
      ensures fresh(prune) && fresh(idontwant) && fresh(ids) && fresh(peers)
      ensures this.storage == storage
    {
      this.storage := storage;
      ihave := new IHaveView[storage.ihave](_ => IHaveView(NO_SPAN, Slice(0, 0)));
      iwant := new Slice[storage.iwant](_ => Slice(0, 0));
      graft := new Span[storage.graft](_ => NO_SPAN);
      prune := new PruneView[storage.prune](_ => PruneView(NO_SPAN, 0, Slice(0, 0)));
      idontwant := new Slice[storage.idontwant](_ => Slice(0, 0));
      ids := new Span[storage.ids](_ => NO_SPAN);
      peers := new PeerView[storage.peers](_ => NO_PEER);
      ihaveCount, iwantCount, graftCount, pruneCount, idontwantCount := 0, 0, 0, 0, 0;
      idNext, peerNext, order := 0, 0, [];
    }

    /**
      The loop of gossipsub_ihave_decode and gossipsub_iwant_decode: a full table is noticed before the id is read,
      and the cursor moves past an id only when it is within limits. The last topic is kept on the way.
    */
    method ReadIds(m: Limits, field: nat, p: Span) returns (err: Option<Error>, topic: Span)
      requires Valid()
      modifies this`idNext, ids
      ensures Valid()
      ensures
        match DecodeIds(m, ids.Length, field, p, old(ids[..idNext]))
        case Bad(e) => err == Some(e)
        case Ok(more) =>
          err == None && ids[..idNext] == more && topic == TopicFold(ItemsOf(p.data, p.start).list, NO_SPAN)
    {
      hide DecodeIds, NextItem, TopicLeft;
      ghost var cap, goal := ids.Length, IdsLeft(m, ids.Length, field, p.data, p.start, ids[..idNext]);
      ghost var last := TopicLeft(p.data, p.start, NO_SPAN);
      assert last == TopicFold(ItemsOf(p.data, p.start).list, NO_SPAN) by { TopicStarts(p); }
      assert p == Span(p.start, p.data);
      var pos := 0;
      err, topic := None, NO_SPAN;
      assert p.data[0..] == p.data;
      while pos < |p.data|
        invariant 0 <= pos <= |p.data| && idNext <= ids.Length
        invariant IdsLeft(m, cap, field, p.data[pos..], p.start + pos, ids[..idNext]) == goal
        invariant TopicLeft(p.data[pos..], p.start + pos, topic) == last
        decreases |p.data| - pos
      {
        var s := p.data[pos..];
        IdsStep(m, cap, field, s, p.start + pos, ids[..idNext]);
        TopicStep(s, p.start + pos, topic);
        var r := ReadItem(s, p.start + pos);
        if r.NoKey? { return Some(r.error), topic; }
        if r.NoPayload? {
          return Some(if r.field == field && r.wire == LEN && idNext >= ids.Length then Limit else r.error), topic;
        }
        if r.item.Text? && r.item.field == 1 { topic := r.item.span; }
        if r.item.Text? && r.item.field == field {
          if idNext >= ids.Length { return Some(Limit), topic; }
          ghost var was := ids[..idNext];
          ids[idNext] := r.item.span;
          if |r.item.span.data| > m.id { return Some(Limit), topic; }
          idNext := idNext + 1;
          assert ids[..idNext] == was + [r.item.span];
        }
        assert p.data[pos + r.read..] == s[r.read..];
        pos := pos + r.read;
      }
      assert p.data[pos..] == [];
      IdsStep(m, cap, field, [], p.start + pos, ids[..idNext]);
      TopicStep([], p.start + pos, topic);
    }

    /** gossipsub_prune_decode: peers go to the shared table, whose cursor moves past those that decode. */
    method ReadPrune(m: Limits, p: Span) returns (r: Result<PruneView>)
      requires Valid()
      modifies this`peerNext, peers
      ensures Valid()
      ensures
        match DecodePrune(m, peers.Length, p, old(peers[..peerNext]))
        case Bad(e) => r == Bad(e)
        case Ok((x, more)) => r == Ok(x) && peers[..peerNext] == more
    {
      hide DecodePrune, NextItem, PruneLeft, DecodePeer, PruneDone;
      var before, pos, x := peerNext, 0, PruneView(NO_SPAN, 0, Slice(0, 0));
      ghost var cap, goal := peers.Length, DecodePrune(m, peers.Length, p, peers[..peerNext]);
      PruneStarts(m, cap, p, peers[..peerNext]);
      assert p.data[0..] == p.data;
      while pos < |p.data|
        invariant 0 <= pos <= |p.data| && peerNext <= peers.Length
        invariant PruneLeft(m, cap, p.data[pos..], p.start + pos, x, peers[..peerNext], before) == goal
        decreases |p.data| - pos
      {
        var s := p.data[pos..];
        PruneStep(m, cap, s, p.start + pos, x, peers[..peerNext], before);
        var next := ReadItem(s, p.start + pos);
        if next.NoKey? { return Bad(next.error); }
        if next.NoPayload? {
          return Bad(if next.field == 2 && next.wire == LEN && peerNext >= peers.Length then Limit else next.error);
        }
        var i := next.item;
        if i.Text? && i.field == 1 {
          x := x.(topic := i.span);
        } else if i.Text? && i.field == 2 {
          if peerNext >= peers.Length { return Bad(Limit); }
          var peer := ReadPeer(m, i.span);
          if peer.Bad? { return Bad(peer.error); }
          ghost var was := peers[..peerNext];
          peers[peerNext] := peer.value;
          peerNext := peerNext + 1;
          assert peers[..peerNext] == was + [peer.value];
        } else if i.Number? && i.field == 3 {
          x := x.(backoff := i.value);
        }
        assert p.data[pos + next.read..] == s[next.read..];
        pos := pos + next.read;
      }
      assert p.data[pos..] == [];
      PruneStep(m, cap, [], p.start + pos, x, peers[..peerNext], before);
      r := PruneDone(m, x, peerNext, before);
    }

    // ------------------------------------------------------------------ one entry more

    method AddIHave(m: Limits, p: Span) returns (err: Option<Error>)
      requires Valid() && ihaveCount < ihave.Length
      modifies this`ihaveCount, this`idNext, this`order, ihave, ids
      ensures Valid()
      ensures
        var c := old(View());
        match DecodeIHave(m, storage.ids, p, c.ids)
        case Bad(e) => err == Some(e)
        case Ok((h, more)) =>
          && err == None
          && View() == c.(ihave := c.ihave + [h], ids := more, order := c.order + [Placed(1, |c.ihave|, h.ids)])
    {
      hide DecodeIds, TopicFold, ItemsOf;
      var start := idNext;
      ghost var before := ids[..idNext];
      var e, topic := ReadIds(m, 2, p);
      if e.Some? { return e; }
      IdsGrow(m, ids.Length, 2, p, before);
      var slice := Slice(start, idNext - start);
      if !TopicFits(m, |topic.data|) || slice.count > m.ids { return Some(Limit); }
      order := order + [Placed(1, ihaveCount, slice)];
      ghost var was := ihave[..ihaveCount];
      ihave[ihaveCount] := IHaveView(topic, slice);
      ihaveCount := ihaveCount + 1;
      assert ihave[..ihaveCount] == was + [IHaveView(topic, slice)];
      err := None;
    }

    /** The ids of an IWANT or an IDONTWANT */
    method TakeIds(m: Limits, p: Span) returns (r: Result<Slice>)
      requires Valid()
      modifies this`idNext, ids
      ensures Valid()
      ensures
        match DecodeIWant(m, storage.ids, p, old(View().ids))
        case Bad(e) => r == Bad(e)
        case Ok((x, more)) => r == Ok(x) && View().ids == more
    {
      hide DecodeIds;
      var start := idNext;
      ghost var before := ids[..idNext];
      var e, topic := ReadIds(m, 1, p);
      if e.Some? { return Bad(e.value); }
      IdsGrow(m, ids.Length, 1, p, before);
      r := if idNext - start > m.ids then Bad(Limit) else Ok(Slice(start, idNext - start));
    }

    method AddIWant(m: Limits, p: Span) returns (err: Option<Error>)
      requires Valid() && iwantCount < iwant.Length
      modifies this`iwantCount, this`idNext, this`order, iwant, ids
      ensures Valid()
      ensures
        var c := old(View());
        match DecodeIWant(m, storage.ids, p, c.ids)
        case Bad(e) => err == Some(e)
        case Ok((x, more)) =>
          && err == None
          && View() == c.(iwant := c.iwant + [x], ids := more, order := c.order + [Placed(2, |c.iwant|, x)])
    {
      hide DecodeIWant;
      var x := TakeIds(m, p);
      if x.Bad? { return Some(x.error); }
      order := order + [Placed(2, iwantCount, x.value)];
      ghost var was := iwant[..iwantCount];
      iwant[iwantCount] := x.value;
      iwantCount := iwantCount + 1;
      assert iwant[..iwantCount] == was + [x.value];
      err := None;
    }

    method AddIDontWant(m: Limits, p: Span) returns (err: Option<Error>)
      requires Valid() && idontwantCount < idontwant.Length
      modifies this`idontwantCount, this`idNext, this`order, idontwant, ids
      ensures Valid()
      ensures
        var c := old(View());
        match DecodeIWant(m, storage.ids, p, c.ids)
        case Bad(e) => err == Some(e)
        case Ok((x, more)) =>
          && err == None
          && View() == c.(idontwant := c.idontwant + [x], ids := more, order := c.order + [Placed(5, |c.idontwant|, x)])
    {
      hide DecodeIWant;
      var x := TakeIds(m, p);
      if x.Bad? { return Some(x.error); }
      order := order + [Placed(5, idontwantCount, x.value)];
      ghost var was := idontwant[..idontwantCount];
      idontwant[idontwantCount] := x.value;
      idontwantCount := idontwantCount + 1;
      assert idontwant[..idontwantCount] == was + [x.value];
      err := None;
    }

    method AddGraft(m: Limits, p: Span) returns (err: Option<Error>)
      requires Valid() && graftCount < graft.Length
      modifies this`graftCount, graft
      ensures Valid()
      ensures
        var c := old(View());
        match DecodeGraft(m, p)
        case Bad(e) => err == Some(e)
        case Ok(t) => err == None && View() == c.(graft := c.graft + [t])
    {
      hide DecodeGraft;
      var t := ReadGraft(m, p);
      if t.Bad? { return Some(t.error); }
      ghost var was := graft[..graftCount];
      graft[graftCount] := t.value;
      graftCount := graftCount + 1;
      assert graft[..graftCount] == was + [t.value];
      err := None;
    }

    method AddPrune(m: Limits, p: Span) returns (err: Option<Error>)
      requires Valid() && pruneCount < prune.Length
      modifies this`pruneCount, this`peerNext, prune, peers
      ensures Valid()
      ensures
        var c := old(View());
        match DecodePrune(m, storage.peers, p, c.peers)
        case Bad(e) => err == Some(e)
        case Ok((x, more)) => err == None && View() == c.(prune := c.prune + [x], peers := more)
    {
      hide DecodePrune;
      var x := ReadPrune(m, p);
      if x.Bad? { return Some(x.error); }
      ghost var was := prune[..pruneCount];
      prune[pruneCount] := x.value;
      pruneCount := pruneCount + 1;
      assert prune[..pruneCount] == was + [x.value];
      err := None;
    }

    /** One field of a control section: a full array is noticed first, a field that is no message next. */
    method TakeItem(m: Limits, i: Item) returns (err: Option<Error>)
      requires Valid()
      modifies this, ihave, iwant, graft, prune, idontwant, ids, peers
      ensures Valid()
      ensures
        match ControlStep(m, storage, old(View()), i)
        case Bad(e) => err == Some(e)
        case Ok(c) => err == None && View() == c
    {
      hide DecodeIHave, DecodeIWant, DecodeGraft, DecodePrune;
      err := None;
      if i.field == 1 {
        if ihaveCount >= ihave.Length { return Some(Limit); }
        if !i.Text? { return Some(InvalidArg); }
        err := AddIHave(m, i.span);
      } else if i.field == 2 {
        if iwantCount >= iwant.Length { return Some(Limit); }
        if !i.Text? { return Some(InvalidArg); }
        err := AddIWant(m, i.span);
      } else if i.field == 3 {
        if graftCount >= graft.Length { return Some(Limit); }
        if !i.Text? { return Some(InvalidArg); }
        err := AddGraft(m, i.span);
      } else if i.field == 4 {
        if pruneCount >= prune.Length { return Some(Limit); }
        if !i.Text? { return Some(InvalidArg); }
        err := AddPrune(m, i.span);
      } else if i.field == 5 {
        if idontwantCount >= idontwant.Length { return Some(Limit); }
        if !i.Text? { return Some(InvalidArg); }
        err := AddIDontWant(m, i.span);
      }
    }

    /** The zeroed control record and cursor */
    method Clear()
      requires Valid()
      modifies this
      ensures Valid() && View() == NO_CONTROL_VIEW
    {
      ihaveCount, iwantCount, graftCount, pruneCount, idontwantCount := 0, 0, 0, 0, 0;
      idNext, peerNext, order := 0, 0, [];
    }

    /** One turn of the loop */
    method Turn(m: Limits, s: seq<byte>, base: nat) returns (err: Option<Error>, read: nat)
      requires Valid() && s != []
      modifies this, ihave, iwant, graft, prune, idontwant, ids, peers
      ensures Valid()
      ensures err.Some? ==> ControlLeft(m, storage, s, base, old(View())) == Bad(err.value)
      ensures err.None? ==>
        1 <= read <= |s| && ControlLeft(m, storage, s, base, old(View())) ==
          ControlLeft(m, storage, s[read..], base + read, View())
    {
      hide NextItem, ControlLeft, ControlStep;
      ControlLeftStep(m, storage, s, base, View());
      var next := ReadItem(s, base);
      if next.NoKey? || next.NoPayload? { return Some(next.error), 0; }
      read := next.read;
      err := TakeItem(m, next.item);
    }

    /** gossipsub_control_decode: the arrays, counts and cursors end up as the decoding function says. */
    method ReadControl(m: Limits, p: Span) returns (err: Option<Error>)
      requires Valid()
      modifies this, ihave, iwant, graft, prune, idontwant, ids, peers
      ensures Valid()
      ensures
        match DecodeControl(m, storage, p)
        case Bad(e) => err == Some(e)
        case Ok(c) => err == None && View() == c
    {
      hide NextItem, ControlLeft, ControlStep, DecodeControl;
      Clear();
      ControlStarts(m, storage, p);
      ghost var goal := DecodeControl(m, storage, p);
      var pos := 0;
      assert p.data[0..] == p.data;
      while pos < |p.data|
        invariant 0 <= pos <= |p.data| && Valid()
        invariant ControlLeft(m, storage, p.data[pos..], p.start + pos, View()) == goal
        decreases |p.data| - pos
      {
        var s := p.data[pos..];
        var read;
        err, read := Turn(m, s, p.start + pos);
        if err.Some? { return; }
        assert p.data[pos + read..] == s[read..];
        pos := pos + read;
      }
      assert p.data[pos..] == [];
      ControlLeftStep(m, storage, [], p.start + pos, View());
      err := if ControlFull(m) then Some(Limit) else None;
    }

    predicate ControlFull(m: Limits) reads this {
      ihaveCount > m.ihave || iwantCount > m.iwant || graftCount > m.graft || pruneCount > m.prune
        || idontwantCount > m.idontwant
    }
  }

  lemma TopicStarts(p: Span)
    ensures TopicLeft(p.data, p.start, NO_SPAN) == TopicFold(ItemsOf(p.data, p.start).list, NO_SPAN)
  {
  }

  lemma ControlStarts(m: Limits, storage: Storage, p: Span)
    ensures ControlLeft(m, storage, p.data, p.start, NO_CONTROL_VIEW) == DecodeControl(m, storage, p)
  {
    hide ItemsOf, ControlFold;
  }

  lemma IdsGrow(m: Limits, cap: nat, field: nat, p: Span, ids: seq<Span>)
    requires DecodeIds(m, cap, field, p, ids).Ok?
    ensures |ids| <= |DecodeIds(m, cap, field, p, ids).value|
  {
    hide ItemsOf, IdsFold;
    IdsFoldGrows(m, cap, field, ItemsOf(p.data, p.start).list, ids);
  }

  // ------------------------------------------------------------------------- the whole RPC

  ghost function RpcLeft(m: Limits, caps: Storage, s: seq<byte>, base: nat, r: RpcView): Result<RpcView> {
    var it := ItemsOf(s, base);
    match RpcFold(m, caps, it.list, r)
    case Bad(e) => Bad(e)
    case Ok(q) =>
      if EndError(it.end).Some? then Bad(EndError(it.end).value)
      else if |q.subs| > m.subs || |q.publish| > m.publish then Bad(Limit)
      else Ok(q)
  }

  lemma RpcLeftStep(m: Limits, caps: Storage, s: seq<byte>, base: nat, r: RpcView)
    ensures s == [] ==> RpcLeft(m, caps, s, base, r) == if |r.subs| > m.subs || |r.publish| > m.publish then Bad(Limit)
      else Ok(r)
    ensures s != [] ==>
      match NextItem(s, base)
      case NoKey(e) => RpcLeft(m, caps, s, base, r) == Bad(e)
      case NoPayload(e, _, _) => RpcLeft(m, caps, s, base, r) == Bad(e)
      case Got(i, n) =>
        && 1 <= n <= |s|
        && match RpcStep(m, caps, r, i)
           case Bad(e) => RpcLeft(m, caps, s, base, r) == Bad(e)
           case Ok(q) => RpcLeft(m, caps, s, base, r) == RpcLeft(m, caps, s[n..], base + n, q)
  {
    hide NextItem, ItemsOf, RpcStep;
    NoItemsLeft(base);
    if s != [] {
      ItemsUnfold(s, base);
      if NextItem(s, base).Got? {
        var i, n := NextItem(s, base).item, NextItem(s, base).read;
        TailOf(i, ItemsOf(s[n..], base + n).list);
      }
    }
  }

  class RpcTables {
    const subs: array<SubView>
    const publish: array<MessageView>
    const control: ControlTables
    var subCount: nat
    var publishCount: nat

    ghost predicate Valid() reads this, control {
      && control.Valid() && subCount <= subs.Length && publishCount <= publish.Length
      && control.storage.subs == subs.Length && control.storage.publish == publish.Length
    }

    ghost function View(): RpcView
      reads this, subs, publish, control, control.ihave, control.iwant, control.graft, control.prune, control.idontwant,
            control.ids, control.peers
      requires Valid()
    {
      RpcView(subs[..subCount], publish[..publishCount], control.View())
    }

    constructor (subs: array<SubView>, publish: array<MessageView>, control: ControlTables)
      requires control.Valid() && control.storage.subs == subs.Length && control.storage.publish == publish.Length
      ensures Valid() && this.subs == subs && this.publish == publish && this.control == control
    {
      this.subs, this.publish, this.control := subs, publish, control;
      subCount, publishCount := 0, 0;
    }

    method TakeItem(m: Limits, i: Item) returns (err: Option<Error>)
      requires Valid()
      modifies this, subs, publish, control, control.ihave, control.iwant, control.graft, control.prune,
        control.idontwant,
               control.ids, control.peers
      ensures Valid()
      ensures
        match RpcStep(m, control.storage, old(View()), i)
        case Bad(e) => err == Some(e)
        case Ok(q) => err == None && View() == q
    {
      hide DecodeSub, DecodeMessage, DecodeControl;
      err := None;
      if i.field == 1 {
        if subCount >= subs.Length { return Some(Limit); }
        if !i.Text? { return Some(InvalidArg); }
        var x := ReadSub(m, i.span);
        if x.Bad? { return Some(x.error); }
        ghost var was := subs[..subCount];
        subs[subCount] := x.value;
        subCount := subCount + 1;
        assert subs[..subCount] == was + [x.value];
      } else if i.field == 2 {
        if publishCount >= publish.Length { return Some(Limit); }
        if !i.Text? { return Some(InvalidArg); }
        var x := ReadMessage(m, i.span);
        if x.Bad? { return Some(x.error); }
        ghost var was := publish[..publishCount];
        publish[publishCount] := x.value;
        publishCount := publishCount + 1;
        assert publish[..publishCount] == was + [x.value];
      } else if i.field == 3 {
        if !i.Text? { return Some(InvalidArg); }
        err := control.ReadControl(m, i.span);
      }
    }

    /** One turn of the loop */
    method Turn(m: Limits, s: seq<byte>, base: nat) returns (err: Option<Error>, read: nat)
      requires Valid() && s != []
      modifies this, subs, publish, control, control.ihave, control.iwant, control.graft, control.prune,
        control.idontwant,
               control.ids, control.peers
      ensures Valid()
      ensures err.Some? ==> RpcLeft(m, control.storage, s, base, old(View())) == Bad(err.value)
      ensures err.None? ==>
        && 1 <= read <= |s|
        && RpcLeft(m, control.storage, s, base, old(View())) ==
              RpcLeft(m, control.storage, s[read..], base + read, View())
    {
      hide NextItem, RpcLeft, RpcStep;
      RpcLeftStep(m, control.storage, s, base, View());
      var next := ReadItem(s, base);
      if next.NoKey? || next.NoPayload? { return Some(next.error), 0; }
      read := next.read;
      err := TakeItem(m, next.item);
    }

    /** libp2p_gossipsub_rpc_body_decode */
    method ReadBody(v: Version, m: Limits, p: Span) returns (err: Option<Error>)
      requires Valid()
      modifies this, subs, publish, control, control.ihave, control.iwant, control.graft, control.prune,
        control.idontwant,
               control.ids, control.peers
      ensures Valid()
      ensures
        match DecodeBody(v, m, control.storage, p)
        case Bad(e) => err == Some(e)
        case Ok(q) => err == None && View() == q
    {
      hide NextItem, RpcLeft, RpcStep, DecodeBody;
      BodyStarts(v, m, control.storage, p);
      if v == Unknown { return Some(UnsupportedVersion); }
      if !ValidLimits(m) || |p.data| > m.rpc { return Some(Limit); }
      subCount, publishCount := 0, 0;
      control.Clear();
      ghost var goal := DecodeBody(v, m, control.storage, p);
      var pos := 0;
      assert p.data[0..] == p.data;
      assert View() == RpcView([], [], NO_CONTROL_VIEW);
      while pos < |p.data|
        invariant 0 <= pos <= |p.data| && Valid()
        invariant RpcLeft(m, control.storage, p.data[pos..], p.start + pos, View()) == goal
        decreases |p.data| - pos
      {
        var s := p.data[pos..];
        var read;
        err, read := Turn(m, s, p.start + pos);
        if err.Some? { return; }
        assert p.data[pos + read..] == s[read..];
        pos := pos + read;
      }
      assert p.data[pos..] == [];
      RpcLeftStep(m, control.storage, [], p.start + pos, View());
      err := if subCount > m.subs || publishCount > m.publish then Some(Limit) else None;
    }

    /**
      libp2p_gossipsub_rpc_frame_decode: the caller's arrays and counts hold the RPC that the decoding function gives.
    */
    method ReadFrame(v: Version, m: Limits, input: seq<byte>) returns (err: Option<Error>)
      requires Valid()
      modifies this, subs, publish, control, control.ihave, control.iwant, control.graft, control.prune,
        control.idontwant,
               control.ids, control.peers
      ensures Valid()
      ensures
        match DecodeFrame(v, m, control.storage, input)
        case Bad(e) => err == Some(e)
        case Ok(q) => err == None && View() == q
    {
      hide DecodeBody, Varint.Decode;
      if v == Unknown { return Some(UnsupportedVersion); }
      if !ValidLimits(m) { return Some(Limit); }
      var n := Varint.DecodeLoop(input);
      if !n.Ok? { return Some(VarintError(n)); }
      if n.value > m.rpc || n.read + n.value > |input| { return Some(Truncated); }
      if n.read + n.value != |input| { return Some(Malformed); }
      err := ReadBody(v, m, Span(n.read, input[n.read..]));
    }
  }

  lemma BodyStarts(v: Version, m: Limits, storage: Storage, p: Span)
    ensures v == Unknown ==> DecodeBody(v, m, storage, p) == Bad(UnsupportedVersion)
    ensures v != Unknown && (!ValidLimits(m) || |p.data| > m.rpc) ==> DecodeBody(v, m, storage, p) == Bad(Limit)
    ensures v != Unknown && ValidLimits(m) && |p.data| <= m.rpc ==>
      DecodeBody(v, m, storage, p) == RpcLeft(m, storage, p.data, p.start, RpcView([], [], NO_CONTROL_VIEW))
  {
    hide ItemsOf, RpcFold, ValidLimits;
  }
}
