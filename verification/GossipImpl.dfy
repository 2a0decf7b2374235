/** The gossipsub encoders over a buffer: fields are written at a position, behind the lengths of the size pass. */
module GossipImpl {
  import opened Bytes
  import opened GossipWire
  import opened Gossip
  import opened GossipDecode
  import opened GossipRoundTrip
  import Varint

  // ---------------------------------------------------------------------------- writing

  class Writer {
    const out: array<byte>
    var pos: nat

    ghost predicate Valid() reads this { pos <= out.Length }
    ghost function Text(): seq<byte> reads this, out requires Valid() { out[..pos] }

    constructor (out: array<byte>)
      ensures Valid() && this.out == out && Text() == []
    {
      this.out := out;
      pos := 0;
    }

    /** gossipsub_write_uvarint */
    method PutVarint(v: nat) returns (err: Option<Error>)
      requires Valid() && v < Varint.WORD
      modifies this, out
      ensures Valid() && err == if v >= Varint.LIMIT then Some(Malformed)
        else if old(pos) + Varint.Size(v) > out.Length then Some(BufTooSmall) else None
      ensures err == None ==> Text() == old(Text()) + Varint.Encode(v)
    {
      ghost var was := out[..pos];
      var status, written := Varint.EncodeInto(v, out, pos);
      hide Varint.Encode;
      if status == Varint.EncodeOverflow { return Some(Malformed); }
      if status == Varint.EncodeBufTooSmall { return Some(BufTooSmall); }
      pos := pos + written;
      assert out[..pos] == was + Varint.Encode(v);
      err := None;
    }

    method PutBytes(data: seq<byte>) returns (err: Option<Error>)
      requires Valid()
      modifies this, out
      ensures Valid() && err == if old(pos) + |data| > out.Length then Some(BufTooSmall) else None
      ensures err == None ==> Text() == old(Text()) + data
    {
      if |data| > out.Length - pos { return Some(BufTooSmall); }
      ghost var was := out[..pos];
      var i := 0;
      while i < |data|
        invariant pos == old(pos) && i <= |data| && out[..pos] == was && out[pos..pos + i] == data[..i]
      {
        out[pos + i] := data[i];
        assert data[..i + 1] == data[..i] + [data[i]];
        assert out[pos..pos + i + 1] == out[pos..pos + i] + [data[i]];
        i := i + 1;
      }
      assert data[..i] == data;
      pos := pos + |data|;
      assert out[..pos] == was + data;
      err := None;
    }
  }

  predicate Fits(w: Writer, n: nat) reads w { w.pos + n <= w.out.Length }

  /** gossipsub_write_len_prefix */
  method PutPrefix(w: Writer, field: nat, n: nat)
    requires w.Valid() && field < 16 && n < Varint.LIMIT && Fits(w, LenFieldSize(field, n))
    modifies w, w.out
    ensures w.Valid() && w.Text() == old(w.Text()) + (Varint.Encode(Key(field, LEN)) + Varint.Encode(n))
  {
    hide Varint.Encode;
    var err := w.PutVarint(Key(field, LEN));
    err := w.PutVarint(n);
  }

  /** gossipsub_write_len_field */
  method PutLenField(w: Writer, field: nat, data: seq<byte>)
    requires w.Valid() && field < 16 && |data| < Varint.LIMIT && Fits(w, |LenField(field, data)|)
    modifies w, w.out
    ensures w.Valid() && w.Text() == old(w.Text()) + LenField(field, data)
  {
    hide Varint.Encode;
    PutPrefix(w, field, |data|);
    var err := w.PutBytes(data);
    assert old(w.Text()) + (Varint.Encode(Key(field, LEN)) + Varint.Encode(|data|)) + data ==
      old(w.Text()) + LenField(field, data);
  }

  method PutOptField(w: Writer, field: nat, data: seq<byte>)
    requires w.Valid() && field < 16 && |data| < Varint.LIMIT && Fits(w, |OptField(field, data)|)
    modifies w, w.out
    ensures w.Valid() && w.Text() == old(w.Text()) + OptField(field, data)
  {
    hide LenField;
    if data != [] { PutLenField(w, field, data); } else { assert w.Text() + [] == w.Text(); }
  }

  /** gossipsub_write_varint_field; a value of 2^63 or more cannot be written. */
  method PutVarintField(w: Writer, field: nat, v: nat) returns (ok: bool)
    requires w.Valid() && field < 16 && v < Varint.WORD && Fits(w, |VarintField(field, v)|)
    modifies w, w.out
    ensures w.Valid() && ok == (v < Varint.LIMIT) && (ok ==> w.Text() == old(w.Text()) + VarintField(field, v))
  {
    hide Varint.Encode;
    var err := w.PutVarint(Key(field, VARINT));
    err := w.PutVarint(v);
    ok := err == None;
    assert old(w.Text()) + Varint.Encode(Key(field, VARINT)) + Varint.Encode(v) ==
      old(w.Text()) + VarintField(field, v);
  }

  lemma FieldsSnoc(field: nat, list: seq<seq<byte>>, x: seq<byte>)
    ensures Fields(field, list + [x]) == Fields(field, list) + LenField(field, x)
    decreases |list|
  {
    hide LenField;
    if list == [] {
      assert [] + [x] == [x] && [x][1..] == [];
      assert LenField(field, x) + [] == LenField(field, x);
    } else {
      FieldsSnoc(field, list[1..], x);
      assert (list + [x])[1..] == list[1..] + [x];
    }
  }

  lemma FieldsLonger(field: nat, list: seq<seq<byte>>, k: nat)
    requires k <= |list|
    ensures |Fields(field, list[..k])| <= |Fields(field, list)|
    ensures k < |list| ==> |Fields(field, list[..k])| + |LenField(field, list[k])| <= |Fields(field, list)|
    decreases |list| - k
  {
    hide LenField;
    if k == |list| {
      assert list[..k] == list;
    } else {
      FieldsLonger(field, list, k + 1);
      assert list[..k + 1] == list[..k] + [list[k]];
      FieldsSnoc(field, list[..k], list[k]);
    }
  }

  /** gossipsub_message_id_list_encode */
  method PutFields(w: Writer, field: nat, list: seq<seq<byte>>)
    requires w.Valid() && field < 16 && Short(list) && Fits(w, |Fields(field, list)|)
    modifies w, w.out
    ensures w.Valid() && w.Text() == old(w.Text()) + Fields(field, list)
  {
    hide LenField, Fields;
    var i := 0;
    ghost var base := w.Text();
    NoneWritten(field, list);
    while i < |list|
      invariant i <= |list| && w.Valid() && w.Text() == base + Fields(field, list[..i])
    {
      FieldsLonger(field, list, i);
      PutLenField(w, field, list[i]);
      FieldsSnoc(field, list[..i], list[i]);
      assert list[..i + 1] == list[..i] + [list[i]];
      AssocBytes(base, Fields(field, list[..i]), LenField(field, list[i]));
      i := i + 1;
    }
    assert list[..i] == list;
  }

  lemma NoneWritten(field: nat, list: seq<seq<byte>>)
    ensures Fields(field, list[..0]) == []
  {
  }

  // -------------------------------------------------------------------- nested messages

  predicate Writable(e: Entry) { e.PruneEntry? ==> e.prune.backoff < Varint.LIMIT }

  /** Backoffs are 64-bit; messages have a topic. */
  predicate Sound(e: Entry) {
    (e.PruneEntry? ==> e.prune.backoff < Varint.WORD) && (e.MessageEntry? ==> e.message.topic != [])
  }

  /** gossipsub_message_encode behind its size check */
  method PutMessage(w: Writer, x: Message)
    requires w.Valid() && x.topic != [] && |EncodeMessage(x)| < Varint.LIMIT && Fits(w, |EncodeMessage(x)|)
    modifies w, w.out
    ensures w.Valid() && w.Text() == old(w.Text()) + EncodeMessage(x)
  {
    MessageSplits(x);
    ghost var base, n := w.Text(), |EncodeMessage(x)|;
    hide OptField, EncodeMessage;
    PutOptField(w, 1, x.from);
    PutOptField(w, 2, x.data);
    PutOptField(w, 3, x.seqno);
    PutOptField(w, 4, x.topic);
    PutOptField(w, 5, x.signature);
    PutOptField(w, 6, x.key);
    Glue6(base, OptField(1, x.from), OptField(2, x.data), OptField(3, x.seqno), OptField(4, x.topic),
      OptField(5, x.signature), OptField(6, x.key));
  }

  lemma Glue6(z: seq<byte>, a: seq<byte>, b: seq<byte>, c: seq<byte>, d: seq<byte>, e: seq<byte>, f: seq<byte>)
    ensures (((((z + a) + b) + c) + d) + e) + f == z + (a + (b + (c + (d + (e + (f + []))))))
  {
  }

  lemma Glue2(z: seq<byte>, a: seq<byte>, b: seq<byte>)
    ensures (z + a) + b == z + (a + b)
  {
  }

  lemma IHaveShort(h: IHave)
    requires |EncodeIHave(h)| < Varint.LIMIT
    ensures |h.topic| < Varint.LIMIT && Short(h.ids)
  {
    hide LenField, Fields;
    LenFieldLong(1, h.topic);
    ElementsShort(2, h.ids);
  }

  method PutIHave(w: Writer, h: IHave)
    requires w.Valid() && |EncodeIHave(h)| < Varint.LIMIT && Fits(w, |EncodeIHave(h)|)
    modifies w, w.out
    ensures w.Valid() && w.Text() == old(w.Text()) + EncodeIHave(h)
  {
    IHaveShort(h);
    hide LenField, Fields;
    ghost var base := w.Text();
    PutLenField(w, 1, h.topic);
    PutFields(w, 2, h.ids);
    Glue2(base, LenField(1, h.topic), Fields(2, h.ids));
  }

  method PutSub(w: Writer, x: Sub)
    requires w.Valid() && |EncodeSub(x)| < Varint.LIMIT && Fits(w, |EncodeSub(x)|)
    modifies w, w.out
    ensures w.Valid() && w.Text() == old(w.Text()) + EncodeSub(x)
  {
    LenFieldLong(2, x.topic);
    hide LenField, VarintField;
    ghost var base := w.Text();
    var ok := PutVarintField(w, 1, Flag(x.subscribe));
    PutLenField(w, 2, x.topic);
    Glue2(base, VarintField(1, Flag(x.subscribe)), LenField(2, x.topic));
  }

  method PutPrune(w: Writer, p: Prune) returns (ok: bool)
    requires w.Valid() && p.backoff < Varint.WORD && |EncodePrune(p)| < Varint.LIMIT && Fits(w, |EncodePrune(p)|)
    modifies w, w.out
    ensures w.Valid() && ok == (p.backoff < Varint.LIMIT) && (ok ==> w.Text() == old(w.Text()) + EncodePrune(p))
  {
    LenFieldLong(1, p.topic);
    hide LenField, VarintField;
    ghost var base := w.Text();
    PutLenField(w, 1, p.topic);
    ok := true;
    if p.backoff != 0 {
      ok := PutVarintField(w, 3, p.backoff);
      Glue2(base, LenField(1, p.topic), VarintField(3, p.backoff));
    } else {
      Glue2(base, LenField(1, p.topic), []);
      assert base + LenField(1, p.topic) + [] == base + LenField(1, p.topic);
    }
  }

  method PutEntry(w: Writer, e: Entry) returns (ok: bool)
    requires w.Valid() && Sound(e) && |EncodeEntry(e)| < Varint.LIMIT && Fits(w, |EncodeEntry(e)|)
    modifies w, w.out
    ensures w.Valid() && ok == Writable(e) && (ok ==> w.Text() == old(w.Text()) + EncodeEntry(e))
  {
    ok := true;
    match e
    case SubEntry(x) => hide EncodeSub; PutSub(w, x);
    case MessageEntry(x) => hide EncodeMessage; PutMessage(w, x);
    case IHaveEntry(x) => hide EncodeIHave; PutIHave(w, x);
    case IdsEntry(x) =>
      ElementsShort(1, x);
      hide Fields;
      PutFields(w, 1, x);
    case GraftEntry(x) =>
      LenFieldLong(1, x);
      hide LenField;
      PutLenField(w, 1, x);
    case PruneEntry(x) => hide EncodePrune; ok := PutPrune(w, x);
  }

  lemma Nested(field: nat, data: seq<byte>, base: seq<byte>)
    ensures LenFieldSize(field, |data|) == |LenField(field, data)|
    ensures (base + (Varint.Encode(Key(field, LEN)) + Varint.Encode(|data|))) + data == base + LenField(field, data)
  {
    hide Varint.Encode;
  }

  /** A nested message: the prefix holds what the size pass reports for it. */
  method PutNested(w: Writer, m: Limits, field: nat, e: Entry) returns (ok: bool)
    requires w.Valid() && field < 16 && Sound(e) && EntrySize(m, e).Ok?
    requires |EncodeEntry(e)| < Varint.LIMIT && Fits(w, |LenField(field, EncodeEntry(e))|)
    modifies w, w.out
    ensures w.Valid() && ok == Writable(e) && (ok ==> w.Text() == old(w.Text()) + LenField(field, EncodeEntry(e)))
  {
    hide EncodeEntry, EntrySize, LenField, Varint.Encode, Sound, Writable;
    Nested(field, EncodeEntry(e), w.Text());
    LenFieldLong(field, EncodeEntry(e));
    EntryExact(m, e);
    PutPrefix(w, field, EntrySize(m, e).value);
    ok := PutEntry(w, e);
  }

  /** Prefix and entry, one entry after the other; the first that cannot be written stops the loop. */
  method PutEntries(w: Writer, m: Limits, field: nat, es: seq<Entry>) returns (ok: bool)
    requires AllOk(m, es)
    requires w.Valid() && field < 16 && |EntryFields(field, es)| < Varint.LIMIT && Fits(w, |EntryFields(field, es)|)
    requires forall i :: 0 <= i < |es| ==> Sound(es[i])
    modifies w, w.out
    ensures w.Valid() && ok == (forall i :: 0 <= i < |es| ==> Writable(es[i]))
    ensures ok ==> w.Text() == old(w.Text()) + EntryFields(field, es)
  {
    hide LenField, Fields, EncodeEntry, EntrySize, Sound, Writable, EntryBytes;
    ghost var base, list := w.Text(), EntryBytes(es);
    ElementsShort(field, list);
    NoneWritten(field, list);
    assert base + [] == base;
    var i := 0;
    while i < |es|
      invariant i <= |es| && w.Valid() && w.Text() == base + Fields(field, list[..i])
      invariant forall k :: 0 <= k < i ==> Writable(es[k])
    {
      ghost var x := list[i];
      assert EncodeEntry(es[i]) == x && |x| < Varint.LIMIT;
      FieldsLonger(field, list, i);
      ok := PutNested(w, m, field, es[i]);
      if !ok {
        assert !Writable(es[i]);
        return;
      }
      OneMore(base, field, list, i);
      i := i + 1;
    }
    assert list[..i] == list;
    ok := true;
  }

  lemma OneMore(base: seq<byte>, field: nat, list: seq<seq<byte>>, i: nat)
    requires i < |list|
    ensures (base + Fields(field, list[..i])) + LenField(field, list[i]) == base + Fields(field, list[..i + 1])
  {
    hide LenField, Fields;
    FieldsSnoc(field, list[..i], list[i]);
    assert list[..i + 1] == list[..i] + [list[i]];
    AssocBytes(base, Fields(field, list[..i]), LenField(field, list[i]));
  }

  // -------------------------------------------------------------------- control, body, frame

  /** Backoffs are 64-bit, and messages to publish have a topic. */
  predicate SoundControl(c: Control) { forall i :: 0 <= i < |c.prune| ==> c.prune[i].backoff < Varint.WORD }

  lemma Glue5(z: seq<byte>, a: seq<byte>, b: seq<byte>, c: seq<byte>, d: seq<byte>, e: seq<byte>)
    ensures ((((z + a) + b) + c) + d) + e == z + (a + (b + (c + (d + e))))
  {
  }

  /** gossipsub_control_encode behind its size check */
  method PutControl(w: Writer, m: Limits, c: Control) returns (ok: bool)
    requires ControlFits(m, c)
    requires w.Valid() && SoundControl(c) && |EncodeControl(c)| < Varint.LIMIT && Fits(w, |EncodeControl(c)|)
    modifies w, w.out
    ensures w.Valid() && ok == Backoffs(c) && (ok ==> w.Text() == old(w.Text()) + EncodeControl(c))
  {
    hide EntryFields, AllOk;
    ghost var base := w.Text();
    ok := PutEntries(w, m, 1, IHaves(c.ihave));
    ok := PutEntries(w, m, 2, IdLists(c.iwant));
    ok := PutEntries(w, m, 3, Grafts(c.graft));
    ok := PutEntries(w, m, 4, Prunes(c.prune));
    if !ok { return; }
    ok := PutEntries(w, m, 5, IdLists(c.idontwant));
    Glue5(base, EntryFields(1, IHaves(c.ihave)), EntryFields(2, IdLists(c.iwant)), EntryFields(3, Grafts(c.graft)),
          EntryFields(4, Prunes(c.prune)), EntryFields(5, IdLists(c.idontwant)));
  }

  lemma TopicsSet(m: Limits, r: Rpc)
    requires RpcFits(m, r)
    ensures forall i :: 0 <= i < |r.publish| ==> r.publish[i].topic != []
  {
    hide EncodeMessage, EncodeBody;
    forall i | 0 <= i < |r.publish| ensures r.publish[i].topic != [] {
      assert EntryOk(m, Messages(r.publish)[i]);
    }
  }

  lemma Glue3(z: seq<byte>, a: seq<byte>, b: seq<byte>, c: seq<byte>)
    ensures ((z + a) + b) + c == z + (a + (b + c))
  {
  }

  method PutSubs(w: Writer, m: Limits, xs: seq<Sub>)
    requires AllOk(m, Subs(xs))
    requires w.Valid() && |EntryFields(1, Subs(xs))| < Varint.LIMIT && Fits(w, |EntryFields(1, Subs(xs))|)
    modifies w, w.out
    ensures w.Valid() && w.Text() == old(w.Text()) + EntryFields(1, Subs(xs))
  {
    hide EntryFields, AllOk;
    var ok := PutEntries(w, m, 1, Subs(xs));
  }

  method PutMessages(w: Writer, m: Limits, xs: seq<Message>)
    requires AllOk(m, Messages(xs))
    requires w.Valid() && |EntryFields(2, Messages(xs))| < Varint.LIMIT && Fits(w, |EntryFields(2, Messages(xs))|)
    requires forall i :: 0 <= i < |xs| ==> xs[i].topic != []
    modifies w, w.out
    ensures w.Valid() && w.Text() == old(w.Text()) + EntryFields(2, Messages(xs))
  {
    hide EntryFields, AllOk;
    var ok := PutEntries(w, m, 2, Messages(xs));
  }

  /** libp2p_gossipsub_rpc_body_encode behind its size check */
  method PutBody(w: Writer, v: Version, m: Limits, r: Rpc) returns (ok: bool)
    requires w.Valid() && BodySize(v, m, r).Ok? && SoundControl(r.control)
    requires |EncodeBody(r)| < Varint.LIMIT && Fits(w, |EncodeBody(r)|)
    modifies w, w.out
    ensures w.Valid() && ok == Backoffs(r.control) && (ok ==> w.Text() == old(w.Text()) + EncodeBody(r))
  {
    hide EntryFields, Subs, Messages, EncodeControl, ControlSize, BodySize, LenField, AllOk, ControlFits, SoundControl;
    BodyExact(v, m, r);
    TopicsSet(m, r);
    ghost var base := w.Text();
    PutSubs(w, m, r.subs);
    PutMessages(w, m, r.publish);
    ghost var tail := if r.control == NO_CONTROL then [] else LenField(3, EncodeControl(r.control));
    Glue3(base, EntryFields(1, Subs(r.subs)), EntryFields(2, Messages(r.publish)), tail);
    if r.control != NO_CONTROL {
      ControlSized(v, m, r);
      ok := PutControlField(w, v, m, r.control);
    } else {
      assert w.Text() + [] == w.Text();
      ok := true;
    }
  }

  lemma ControlSized(v: Version, m: Limits, r: Rpc)
    requires BodySize(v, m, r).Ok? && r.control != NO_CONTROL
    ensures ControlSize(v, m, r.control).Ok?
  {
    hide EntrySizes, Subs, Messages, ControlSize;
    ControlPart(v, m, r.control, Then(Then(Ok(0), m, 1, Subs(r.subs)), m, 2, Messages(r.publish)).value);
  }

  method PutControlField(w: Writer, v: Version, m: Limits, c: Control) returns (ok: bool)
    requires ControlSize(v, m, c).Ok? && w.Valid() && SoundControl(c) && |LenField(3, EncodeControl(c))| < Varint.LIMIT
    requires Fits(w, |LenField(3, EncodeControl(c))|)
    modifies w, w.out
    ensures w.Valid() && ok == Backoffs(c) && (ok ==> w.Text() == old(w.Text()) + LenField(3, EncodeControl(c)))
  {
    hide EncodeControl, ControlSize, ControlFits, LenField, Varint.Encode;
    ControlExact(v, m, c);
    Nested(3, EncodeControl(c), w.Text());
    LenFieldLong(3, EncodeControl(c));
    PutPrefix(w, 3, ControlSize(v, m, c).value);
    ok := PutControl(w, m, c);
  }

  /**
    libp2p_gossipsub_rpc_frame_encode: it writes exactly the bytes that the size pass counted, or reports the
    count when they do not fit; a backoff of 2^63 seconds or more cannot be written.
  */
  method EncodeFrameInto(v: Version, m: Limits, r: Rpc, out: array<byte>) returns (err: Option<Error>, written: nat)
    requires |EncodeBody(r)| < Varint.WORD && SoundControl(r.control)
    modifies out
    ensures
      match FrameSize(v, m, r)
      case Bad(e) => err == Some(e)
      case Ok(n) =>
        if n > out.Length then err == Some(BufTooSmall) && written == n
        else if |EncodeBody(r)| >= Varint.LIMIT || !Backoffs(r.control) then err == Some(Malformed)
        else err == None && written == n && out[..written] == EncodeFrame(r)
  {
    hide BodySize, EncodeBody, Varint.Encode;
    written := 0;
    var size := FrameSize(v, m, r);
    if size.Bad? { return Some(size.error), 0; }
    BodyExact(v, m, r);
    if size.value > out.Length { return Some(BufTooSmall), size.value; }
    var w := new Writer(out);
    var n := BodySize(v, m, r).value;
    err := w.PutVarint(n);
    if err.Some? { return; }
    var ok := PutBody(w, v, m, r);
    if !ok { return Some(Malformed), 0; }
    written := w.pos;
    assert [] + Varint.Encode(n) == Varint.Encode(n);
  }

  /** gossipsub_message_id_list_size: the running total */
  method SizeIds(m: Limits, field: nat, ids: Ids, total: nat) returns (r: Result<nat>)
    ensures r == IdsSize(m, field, ids, total)
  {
    if |ids| > m.ids { return Bad(Limit); }
    var sum, i := total, 0;
    assert ids[0..] == ids;
    while i < |ids|
      invariant i <= |ids| && sum >= 0 && EachIdSize(m, field, ids[i..], sum) == EachIdSize(m, field, ids, total)
    {
      assert ids[i..][1..] == ids[i + 1..];
      if !(0 < |ids[i]| <= m.id) { return Bad(Limit); }
      sum := sum + LenFieldSize(field, |ids[i]|);
      i := i + 1;
    }
    r := Ok(sum);
  }
}
