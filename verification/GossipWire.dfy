/** The protobuf wire format of gossipsub: keys, length-delimited fields, and the fields of a message in order. */
module GossipWire {
  import opened Bytes
  import Varint

  const VARINT: nat := 0
  const FIXED64: nat := 1
  const LEN: nat := 2
  const FIXED32: nat := 5

  datatype Error = Truncated | Malformed | Limit | InvalidArg | UnsupportedVersion | BufTooSmall
  datatype Result<+T> = Ok(value: T) | Bad(error: Error)

  /** A piece of the input: where it starts, and its bytes. */
  datatype Span = Span(start: nat, data: seq<byte>)
  const NO_SPAN := Span(0, [])

  // ---------------------------------------------------------------------------- writing

  function Key(field: nat, wire: nat): nat { field * 8 + wire }

  /** gossipsub_write_len_field */
  function LenField(field: nat, data: seq<byte>): seq<byte> {
    Varint.Encode(Key(field, LEN)) + Varint.Encode(|data|) + data
  }

  /** gossipsub_write_varint_field */
  function VarintField(field: nat, value: nat): seq<byte> {
    Varint.Encode(Key(field, VARINT)) + Varint.Encode(value)
  }

  /** gossipsub_field_size */
  function LenFieldSize(field: nat, n: nat): nat { Varint.Size(Key(field, LEN)) + Varint.Size(n) + n }
  function VarintFieldSize(field: nat, value: nat): nat { Varint.Size(Key(field, VARINT)) + Varint.Size(value) }

  // ---------------------------------------------------------------------------- reading

  datatype Item = Number(field: nat, value: nat) | Text(field: nat, span: Span) | Fixed(field: nat)

  /** A field was read; or the key could not be; or what follows the key could not be. */
  datatype Next = Got(item: Item, read: nat) | NoKey(error: Error) | NoPayload(error: Error, field: nat, wire: nat)

  function VarintError(r: Varint.Result): Error {
    if r.Truncated? then Truncated else Malformed
  }

  /** One field: its key, truncated to 32 bits of field number, and what its wire type announces. */
  function NextItem(s: seq<byte>, base: nat): Next {
    var k := Varint.Decode(s);
    if !k.Ok? then NoKey(VarintError(k))
    else if k.read > |s| then NoKey(Truncated)
    else
      var field, wire := k.value / 8 % 0x1_0000_0000, k.value % 8;
      var t := s[k.read..];
      if wire == VARINT then
        var v := Varint.Decode(t);
        if !v.Ok? then NoPayload(VarintError(v), field, wire) else Got(Number(field, v.value), k.read + v.read)
      else if wire == LEN then
        var n := Varint.Decode(t);
        if !n.Ok? then NoPayload(VarintError(n), field, wire)
        else if n.read + n.value > |t| then NoPayload(Truncated, field, wire)
        else
          Got(Text(field, Span(base + k.read + n.read, t[n.read..n.read + n.value])), k.read + n.read + n.value)
      else if wire == FIXED64 then
        if |t| < 8 then NoPayload(Truncated, field, wire) else Got(Fixed(field), k.read + 8)
      else if wire == FIXED32 then
        if |t| < 4 then NoPayload(Truncated, field, wire) else Got(Fixed(field), k.read + 4)
      else NoPayload(Malformed, field, wire)
  }

  /** Every field consumes input, and never more than there is. */
  lemma ItemConsumes(s: seq<byte>, base: nat)
    requires NextItem(s, base).Got?
    ensures 1 <= NextItem(s, base).read <= |s|
  {
    hide Varint.Decode, Varint.Encode;
    var k := Varint.Decode(s);
    Varint.Canonical(s);
    var t := s[k.read..];
    if Varint.Decode(t).Ok? { Varint.Canonical(t); }
  }

  /** How the fields end: at the end of the input, or at the first one that cannot be read. */
  datatype End = Clean | BadKey(error: Error) | BadPayload(error: Error, field: nat, wire: nat)
  datatype Items = Items(list: seq<Item>, end: End)

  /** The fields of s in order, up to the first that cannot be read. */
  function ItemsOf(s: seq<byte>, base: nat): Items
    decreases |s|
  {
    if s == [] then Items([], Clean)
    else
      match NextItem(s, base)
      case NoKey(e) => Items([], BadKey(e))
      case NoPayload(e, f, w) => Items([], BadPayload(e, f, w))
      case Got(item, n) =>
        ItemConsumes(s, base);
        var rest := ItemsOf(s[n..], base + n);
        Items([item] + rest.list, rest.end)
  }

  // ------------------------------------------------------------------ what was written

  lemma KeyReads(field: nat, wire: nat)
    requires field < 0x1000_0000 && wire < 8
    ensures Key(field, wire) / 8 % 0x1_0000_0000 == field
    ensures Key(field, wire) % 8 == wire && Key(field, wire) < Varint.LIMIT
  {
    var k := Key(field, wire);
    assert k == field * 8 + wire;
    assert k % 8 == wire;
    assert k / 8 == field;
    assert field % 0x1_0000_0000 == field;
    assert k < Varint.LIMIT;
  }

  lemma LenFieldReads(field: nat, data: seq<byte>, rest: seq<byte>, base: nat)
    requires field < 0x1000_0000 && |data| < Varint.LIMIT
    ensures
      var k, n := Varint.Size(Key(field, LEN)), Varint.Size(|data|);
      NextItem(LenField(field, data) + rest, base) ==
        Got(Text(field, Span(base + k + n, data)), |LenField(field, data)|)
  {
    hide Varint.Encode, Varint.Decode, Key;
    var a, b := Varint.Encode(Key(field, LEN)), Varint.Encode(|data|);
    var s := LenField(field, data) + rest;
    KeyReads(field, LEN);
    assert s == a + (b + (data + rest));
    Varint.RoundTrip(Key(field, LEN), b + (data + rest));
    assert s[|a|..] == b + (data + rest);
    Varint.RoundTrip(|data|, data + rest);
    assert (b + (data + rest))[|b|..|b| + |data|] == data;
  }

  lemma VarintFieldReads(field: nat, value: nat, rest: seq<byte>, base: nat)
    requires field < 0x1000_0000 && value < Varint.LIMIT
    ensures NextItem(VarintField(field, value) + rest, base) == Got(Number(field, value), |VarintField(field, value)|)
  {
    hide Varint.Encode, Varint.Decode, Key;
    var a, b := Varint.Encode(Key(field, VARINT)), Varint.Encode(value);
    var s := VarintField(field, value) + rest;
    KeyReads(field, VARINT);
    assert s == a + (b + rest);
    Varint.RoundTrip(Key(field, VARINT), b + rest);
    assert s[|a|..] == b + rest;
    Varint.RoundTrip(value, rest);
  }

  function Prefixed(item: Item, rest: Items): Items {
    Items([item] + rest.list, rest.end)
  }

  /** A length-delimited field in front of others is the first item. */
  lemma LenFieldFirst(field: nat, data: seq<byte>, rest: seq<byte>, base: nat)
    requires field < 0x1000_0000 && |data| < Varint.LIMIT
    ensures
      var n := |LenField(field, data)|;
      ItemsOf(LenField(field, data) + rest, base) ==
        Prefixed(Text(field, Span(base + n - |data|, data)), ItemsOf(rest, base + n))
  {
    hide NextItem, LenField;
    LenFieldReads(field, data, rest, base);
    LenFieldLength(field, data);
    Behind(LenField(field, data), rest);
  }

  lemma LenFieldLength(field: nat, data: seq<byte>)
    ensures |LenField(field, data)| == Varint.Size(Key(field, LEN)) + Varint.Size(|data|) + |data| >= 1
  {
    hide Varint.Encode;
  }

  lemma Behind(a: seq<byte>, rest: seq<byte>)
    ensures (a + rest)[|a|..] == rest
  {
  }

  lemma VarintFieldFirst(field: nat, value: nat, rest: seq<byte>, base: nat)
    requires field < 0x1000_0000 && value < Varint.LIMIT
    ensures
      ItemsOf(VarintField(field, value) + rest, base) ==
        Prefixed(Number(field, value), ItemsOf(rest, base + |VarintField(field, value)|))
  {
    hide NextItem, VarintField;
    VarintFieldLength(field, value);
    VarintFieldReads(field, value, rest, base);
    Behind(VarintField(field, value), rest);
  }

  lemma VarintFieldLength(field: nat, value: nat)
    ensures |VarintField(field, value)| >= 1
  {
    hide Varint.Encode;
  }

  // ----------------------------------------------------------------------- spans inside

  /** The span is where it says it is, inside the input. */
  predicate Within(input: seq<byte>, p: Span) {
    p.start + |p.data| <= |input| && input[p.start..p.start + |p.data|] == p.data
  }

  predicate ItemWithin(input: seq<byte>, i: Item) {
    i.Text? ==> Within(input, i.span)
  }

  lemma NextWithin(s: seq<byte>, base: nat, input: seq<byte>)
    requires base + |s| <= |input| && input[base..base + |s|] == s && NextItem(s, base).Got?
    ensures ItemWithin(input, NextItem(s, base).item)
  {
    hide Varint.Decode, Varint.Encode;
    var k := Varint.Decode(s);
    Varint.Canonical(s);
    if k.value % 8 == LEN {
      var t := s[k.read..];
      var n := Varint.Decode(t);
      var p := NextItem(s, base).item.span;
      forall i | 0 <= i < |p.data| ensures input[p.start..p.start + |p.data|][i] == p.data[i] {
        assert input[base..base + |s|][k.read + n.read + i] == s[k.read + n.read + i];
      }
    }
  }

  lemma SuffixInside(s: seq<byte>, base: nat, input: seq<byte>, n: nat)
    requires base + |s| <= |input| && input[base..base + |s|] == s && n <= |s|
    ensures base + n + |s[n..]| <= |input| && input[base + n..base + n + |s[n..]|] == s[n..]
  {
    assert input[base..base + |s|][n..] == s[n..];
  }

  lemma ItemsFirst(s: seq<byte>, base: nat)
    requires s != [] && NextItem(s, base).Got?
    ensures
      var n := NextItem(s, base).read;
      1 <= n <= |s| && ItemsOf(s, base).list == [NextItem(s, base).item] + ItemsOf(s[n..], base + n).list
  {
    hide NextItem;
    ItemConsumes(s, base);
  }

  lemma ItemsNone(s: seq<byte>, base: nat)
    ensures s == [] || !NextItem(s, base).Got? ==> ItemsOf(s, base).list == []
  {
    hide NextItem;
  }

  /** Every span in the items lies inside the input. */
  lemma {:induction false} ItemsWithin(s: seq<byte>, base: nat, input: seq<byte>)
    requires base + |s| <= |input| && input[base..base + |s|] == s
    ensures forall i :: 0 <= i < |ItemsOf(s, base).list| ==> ItemWithin(input, ItemsOf(s, base).list[i])
    decreases |s|
  {
    hide NextItem, ItemWithin, ItemsOf;
    ItemsNone(s, base);
    if s != [] && NextItem(s, base).Got? {
      var n := NextItem(s, base).read;
      NextWithin(s, base, input);
      ItemsFirst(s, base);
      SuffixInside(s, base, input, n);
      ItemsWithin(s[n..], base + n, input);
    }
  }
}
