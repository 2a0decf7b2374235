/** Multiaddrs in buffers: the component cursor, append, encapsulate, decapsulate, and the two text conversions. */
module MultiaddrImpl {
  import opened Bytes
  import opened Multiaddr
  import opened MultiaddrText
  import opened IpImpl
  import Varint
  import Multihash
  import Ip
  import PeerText
  import Radix
  import Base58
  import Base58Impl

  // ----------------------------------------------------------------------------- cursor

  class Cursor {
    const buf: seq<byte>
    var offset: nat

    ghost predicate Valid() reads this { offset <= |buf| }

    constructor (buf: seq<byte>)
      ensures Valid() && this.buf == buf && offset == 0
    {
      this.buf := buf;
      offset := 0;
    }

    /** libp2p_multiaddr_next_component: the cursor moves only when there is a component. */
    method Next() returns (r: Multiaddr.Next)
      requires Valid()
      modifies this
      ensures Valid() && r == NextComponent(old(buf[offset..]))
      ensures offset == old(offset) + if r.Got? then r.read else 0
    {
      r := ReadComponent(buf[offset..]);
      if r.Got? {
        NextCanonical(buf[offset..]);
        offset := offset + r.read;
      }
    }
  }

  /** The code, by the varint loop, then what the protocol table says stands behind it */
  method ReadComponent(s: seq<byte>) returns (r: Multiaddr.Next)
    ensures r == NextComponent(s)
  {
    hide Varint.Decode;
    if s == [] { return End; }
    var c := Varint.DecodeLoop(s);
    if !c.Ok? { return Failed(VarintError(c)); }
    if c.read > |s| { return Failed(Truncated); }
    var kind := ClassOf(c.value);
    if kind.None? { return Failed(UnsupportedProtocol); }
    if kind.value.NoValue? { return Got(Component(c.value, []), c.read); }
    var start, size := c.read, 0;
    if kind.value.Fixed? {
      size := kind.value.size;
    } else {
      var n := Varint.DecodeLoop(s[c.read..]);
      if !n.Ok? { return Failed(VarintError(n)); }
      start, size := c.read + n.read, n.value;
    }
    if start + size > |s| { return Failed(Truncated); }
    r := Got(Component(c.value, s[start..start + size]), start + size);
  }

  /** multiaddr_validate_p2p_value */
  method ReadMultihash(x: seq<byte>) returns (whole: bool)
    ensures whole == Multihash.Whole(x)
  {
    hide Varint.Decode;
    var c := Varint.DecodeLoop(x);
    if !c.Ok? || c.read > |x| { return false; }
    var n := Varint.DecodeLoop(x[c.read..]);
    if !n.Ok? || !Multihash.Supported(c.value, n.value) { return false; }
    whole := c.read + n.read + n.value == |x|;
  }

  /** The components seen so far in front of the verdict on the rest. */
  ghost function Seen(cs: seq<Component>, r: Checked): Checked {
    match r
    case Ok(ds) => Ok(cs + ds)
    case bad => bad
  }

  lemma ValidateStep(s: seq<byte>, cs: seq<Component>)
    ensures NextComponent(s).End? ==> Seen(cs, Validate(s)) == Ok(cs)
    ensures NextComponent(s).Failed? ==> Validate(s) == Bad(NextComponent(s).error)
    ensures NextComponent(s).Got? ==>
      var c := NextComponent(s).component;
      if c.code == P2P && !Multihash.Whole(c.value) then Validate(s) == Bad(Malformed)
      else NextComponent(s).read <= |s| && Seen(cs, Validate(s)) == Seen(cs + [c], Validate(s[NextComponent(s).read..]))
  {
    if NextComponent(s).Got? {
      NextCanonical(s);
      var c, n := NextComponent(s).component, NextComponent(s).read;
      hide NextComponent;
      if Validate(s[n..]).Ok? {
        assert cs + ([c] + Validate(s[n..]).components) == (cs + [c]) + Validate(s[n..]).components;
      }
    } else {
      assert cs + [] == cs;
    }
  }

  /** libp2p_multiaddr_validate */
  method ValidateBuffer(buf: seq<byte>) returns (r: Checked)
    ensures r == Validate(buf)
  {
    var cursor := new Cursor(buf);
    var cs: seq<Component> := [];
    assert buf[0..] == buf;
    ValidateStart(Validate(buf));
    while true
      invariant fresh(cursor) && cursor.Valid() && cursor.buf == buf
      invariant Seen(cs, Validate(buf[cursor.offset..])) == Validate(buf)
      decreases |buf| - cursor.offset
    {
      ghost var s := buf[cursor.offset..];
      ValidateStep(s, cs);
      ghost var at := cursor.offset;
      var next := cursor.Next();
      hide NextComponent, Validate;
      if next.End? { return Ok(cs); }
      if next.Failed? { return Bad(next.error); }
      var c := next.component;
      if c.code == P2P {
        var whole := ReadMultihash(c.value);
        if !whole { return Bad(Malformed); }
      }
      cs := cs + [c];
      assert buf[cursor.offset..] == s[next.read..];
      ReadsSomething(s);
    }
  }

  lemma ValidateStart(r: Checked)
    ensures Seen([], r) == r
  {
    if r.Ok? { assert [] + r.components == r.components; }
  }

  lemma ReadsSomething(s: seq<byte>)
    requires NextComponent(s).Got?
    ensures NextComponent(s).read >= 1
  {
    NextCanonical(s);
  }

  // ----------------------------------------------------------------- writing components

  method CopyAt(src: seq<byte>, out: array<byte>, at: nat)
    requires at + |src| <= out.Length
    modifies out
    ensures out[..at] == old(out[..at]) && out[at..at + |src|] == src && out[at + |src|..] == old(out[at + |src|..])
  {
    var i := 0;
    while i < |src|
      invariant i <= |src| && out[..at] == old(out[..at]) && out[at + |src|..] == old(out[at + |src|..])
      invariant forall k :: 0 <= k < i ==> out[at + k] == src[k]
    {
      out[at + i] := src[i];
      i := i + 1;
    }
  }

  /**
    libp2p_multiaddr_append_component: the position moves past the component even when the buffer is too small,
    and nothing is written then.
  */
  method Append(c: Component, out: array<byte>, room: nat, pos: nat) returns (err: Option<Error>, pos': nat)
    requires room <= out.Length
    modifies out
    ensures err ==
      if ClassOf(c.code).None? then Some(UnsupportedProtocol)
      else if !Valid(c) then Some(InvalidValue)
      else if pos + |ToBytes(c)| > room then Some(BufTooSmall)
      else None
    ensures pos' == if Valid(c) then pos + |ToBytes(c)| else pos
    ensures err == None ==> out[..pos] == old(out[..pos]) && out[pos..pos'] == ToBytes(c)
    ensures err != None ==> out[..] == old(out[..])
  {
    pos' := pos;
    if ClassOf(c.code).None? { return Some(UnsupportedProtocol), pos; }
    if !Valid(c) { return Some(InvalidValue), pos; }
    hide Valid, ToBytes;
    var size := MeasureComponent(c);
    pos' := pos + size;
    if pos' > room { return Some(BufTooSmall), pos'; }
    ghost var base := out[..pos];
    WriteComponent(c, out, pos);
    Split(out[..], base, ToBytes(c));
    err := None;
  }

  method MeasureComponent(c: Component) returns (size: nat)
    requires Valid(c)
    ensures size == |ToBytes(c)|
  {
    hide Varint.Encode, Multihash.Whole;
    size := Varint.Measure(c.code);
    if ClassOf(c.code) == Some(Variable) {
      var prefix := Varint.Measure(|c.value|);
      size := size + prefix;
    }
    size := size + |c.value|;
  }

  /** Code, length prefix of a variable value, and value, one behind the other */
  method WriteComponent(c: Component, out: array<byte>, pos: nat)
    requires Valid(c) && pos + |ToBytes(c)| <= out.Length
    modifies out
    ensures out[..pos + |ToBytes(c)|] == old(out[..pos]) + ToBytes(c)
  {
    hide Varint.Encode, Multihash.Whole;
    ghost var base, code := out[..pos], Varint.Encode(c.code);
    var start := CopyVarint(c.code, out, pos);
    ghost var prefix := [];
    if ClassOf(c.code) == Some(Variable) {
      prefix := Varint.Encode(|c.value|);
      start := CopyVarint(|c.value|, out, start);
    }
    ghost var front := out[..start];
    CopyAt(c.value, out, start);
    Joined(out[..], front, base, code, prefix, c.value);
  }

  lemma Joined(out: seq<byte>, front: seq<byte>, base: seq<byte>, code: seq<byte>, prefix: seq<byte>, value: seq<byte>)
    requires |front| + |value| <= |out| && out[..|front|] == front && out[|front|..|front| + |value|] == value
    requires front == base + code + prefix || (prefix == [] && front == base + code)
    ensures out[..|base| + |code + prefix + value|] == base + (code + prefix + value)
  {
    assert out[..|front| + |value|] == front + value;
    assert front == base + code + prefix;
    assert front + value == base + (code + prefix + value);
  }

  lemma Split(out: seq<byte>, base: seq<byte>, bytes: seq<byte>)
    requires |base| + |bytes| <= |out| && out[..|base| + |bytes|] == base + bytes
    ensures out[..|base|] == base && out[|base|..|base| + |bytes|] == bytes
  {
    var front := out[..|base| + |bytes|];
    assert front[..|base|] == base && front[|base|..] == bytes;
  }

  /** The encoding by the varint loop, in a scratch buffer of its own, and then copied */
  method CopyVarint(v: nat, out: array<byte>, at: nat) returns (end: nat)
    requires v < Varint.LIMIT && at + Varint.Size(v) <= out.Length
    modifies out
    ensures end == at + Varint.Size(v) && out[..end] == old(out[..at]) + Varint.Encode(v)
  {
    hide Varint.Encode;
    var scratch := new byte[Varint.MAX_BYTES + 1];
    Varint.AtMostNine(v);
    var status, n := Varint.EncodeInto(v, scratch, 0);
    assert scratch[..n] == Varint.Encode(v);
    CopyAt(scratch[..n], out, at);
    end := at + n;
    assert out[..end] == out[..at] + out[at..end];
  }

  // ------------------------------------------------------- encapsulate and decapsulate

  /** libp2p_multiaddr_encapsulate */
  method EncapsulateInto(a: seq<byte>, b: seq<byte>, out: array<byte>) returns (err: Option<Error>, written: nat)
    modifies out
    ensures
      match Encapsulate(a, b)
      case Refused(e) => err == Some(e) && written == 0
      case Done(s) =>
        written == |s| && (if |s| <= out.Length then err == None && out[..written] == s else err == Some(BufTooSmall))
  {
    var va := ValidateBuffer(a);
    hide Validate;
    if va.Bad? { return Some(va.error), 0; }
    var vb := ValidateBuffer(b);
    if vb.Bad? { return Some(vb.error), 0; }
    written := |a| + |b|;
    if out.Length < written { return Some(BufTooSmall), written; }
    CopyAt(a, out, 0);
    assert out[..|a|] == a;
    CopyAt(b, out, |a|);
    assert out[..written] == out[..|a|] + out[|a|..written];
    err := None;
  }

  lemma LastMatchUnfold(s: seq<byte>, inner: seq<byte>, at: nat, found: Option<nat>)
    ensures !NextComponent(s).Got? ==> LastMatch(s, inner, at, found) == found
    ensures NextComponent(s).Got? ==>
      var n := NextComponent(s).read;
      1 <= n <= |s| && LastMatch(s, inner, at, found) ==
        LastMatch(s[n..], inner, at + n, if inner <= s then Some(at) else found)
  {
    hide NextComponent;
    if NextComponent(s).Got? { NextCanonical(s); }
  }

  /** multiaddr_byte_sequence_matches, where enough bytes are left */
  method Matches(outer: seq<byte>, start: nat, inner: seq<byte>) returns (same: bool)
    requires start <= |outer|
    ensures same == (inner <= outer[start..])
  {
    if |outer| - start < |inner| { return false; }
    same := true;
    var i := 0;
    while i < |inner|
      invariant i <= |inner| && same == (inner[..i] == outer[start..start + i])
    {
      if outer[start + i] != inner[i] { same := false; }
      assert inner[..i + 1] == inner[..i] + [inner[i]];
      assert outer[start..start + i + 1] == outer[start..start + i] + [outer[start + i]];
      i := i + 1;
    }
    assert inner[..i] == inner && outer[start..start + i] == outer[start..][..i];
  }

  /** The scan of libp2p_multiaddr_decapsulate: every component start is tried, the last match wins. */
  method FindLast(outer: seq<byte>, inner: seq<byte>) returns (found: Option<nat>)
    ensures found == LastMatch(outer, inner, 0, None)
    ensures found.Some? ==> found.value <= |outer|
  {
    hide NextComponent, LastMatch;
    var cursor := new Cursor(outer);
    found := None;
    assert outer[0..] == outer;
    while true
      invariant fresh(cursor) && cursor.Valid() && cursor.buf == outer && (found.Some? ==> found.value <= |outer|)
      invariant LastMatch(outer[cursor.offset..], inner, cursor.offset, found) == LastMatch(outer, inner, 0, None)
      decreases |outer| - cursor.offset
    {
      var start := cursor.offset;
      ghost var s := outer[start..];
      LastMatchUnfold(s, inner, start, found);
      var next := cursor.Next();
      if !next.Got? { return; }
      var same := Matches(outer, start, inner);
      if same { found := Some(start); }
      assert outer[cursor.offset..] == s[next.read..];
    }
  }

  /** libp2p_multiaddr_decapsulate */
  method DecapsulateInto(outer: seq<byte>, inner: seq<byte>, out: array<byte>)
    returns (err: Option<Error>, written: nat)
    modifies out
    ensures
      match Decapsulate(outer, inner)
      case Refused(e) => err == Some(e) && written == 0
      case Done(s) =>
        written == |s| && (if |s| <= out.Length then err == None && out[..written] == s else err == Some(BufTooSmall))
  {
    hide Validate, LastMatch;
    var vo := ValidateBuffer(outer);
    if vo.Bad? { return Some(vo.error), 0; }
    var vi := ValidateBuffer(inner);
    if vi.Bad? { return Some(vi.error), 0; }
    var keep := |outer|;
    if inner != [] {
      var found := FindLast(outer, inner);
      if found.None? { return Some(NotFound), 0; }
      keep := found.value;
    }
    written := keep;
    assert outer[..keep] == if inner == [] then outer else outer[..keep];
    if out.Length < keep { return Some(BufTooSmall), keep; }
    CopyAt(outer[..keep], out, 0);
    err := None;
  }

  // ---------------------------------------------------------------------------- to text

  lemma {:induction false} JoinSnoc(gs: seq<nat>, v: nat)
    ensures Ip.Join(gs + [v]) == (if gs == [] then "" else Ip.Join(gs) + ":") + Ip.Numeral(v, 16)
  {
    hide Ip.Numeral;
    if gs == [] {
      assert gs + [v] == [v];
    } else {
      var h, t := gs[0], gs[1..];
      assert gs == [h] + t && gs + [v] == [h] + (t + [v]);
      Ip.JoinCons(h, t);
      Ip.JoinCons(h, t + [v]);
      JoinSnoc(t, v);
      hide Ip.Join;
      if t == [] { assert gs == [h]; }
    }
  }

  /** What has been written of the groups when i of them are done. */
  ghost function Written(gs: seq<nat>, start: nat, n: nat, i: nat): string
    requires i <= |gs| && start + n <= |gs|
  {
    if n == 0 || i <= start then Ip.Join(gs[..i])
    else if i < start + n then ""
    else Ip.Join(gs[..start]) + "::" + Ip.Join(gs[start + n..i])
  }

  lemma WrittenStep(gs: seq<nat>, start: nat, n: nat, i: nat)
    requires i < |gs| && start + n <= |gs| && (n == 0 || i < start || i >= start + n)
    ensures
      var first := i == 0 || (n > 0 && i == start + n);
      Written(gs, start, n, i + 1) == Written(gs, start, n, i) + (if first then "" else ":") + Ip.Numeral(gs[i], 16)
  {
    hide Ip.Numeral, Ip.Join;
    if n == 0 || i < start {
      WrittenBefore(gs, i);
    } else {
      WrittenAfter(gs, start + n, i);
      var separator := if i == start + n then "" else ":";
      Assoc(Ip.Join(gs[..start]) + "::", Ip.Join(gs[start + n..i]), separator, Ip.Numeral(gs[i], 16));
    }
  }

  lemma Assoc(a: string, b: string, c: string, d: string)
    ensures a + (b + c + d) == (a + b) + c + d
  {
  }

  lemma WrittenBefore(gs: seq<nat>, i: nat)
    requires i < |gs|
    ensures Ip.Join(gs[..i + 1]) == Ip.Join(gs[..i]) + (if i == 0 then "" else ":") + Ip.Numeral(gs[i], 16)
  {
    assert gs[..i + 1] == gs[..i] + [gs[i]];
    JoinSnoc(gs[..i], gs[i]);
    if i == 0 { assert Ip.Join(gs[..0]) == ""; }
    hide Ip.Join, Ip.Numeral;
  }

  lemma WrittenAfter(gs: seq<nat>, k: nat, i: nat)
    requires k <= i < |gs|
    ensures Ip.Join(gs[k..i + 1]) == Ip.Join(gs[k..i]) + (if i == k then "" else ":") + Ip.Numeral(gs[i], 16)
  {
    assert gs[k..i + 1] == gs[k..i] + [gs[i]];
    JoinSnoc(gs[k..i], gs[i]);
    if i == k { assert Ip.Join(gs[k..k]) == ""; }
    hide Ip.Join, Ip.Numeral;
  }

  lemma WrittenNothing(gs: seq<nat>, start: nat, n: nat)
    requires start + n <= |gs|
    ensures Written(gs, start, n, 0) == ""
  {
  }

  lemma WrittenGap(gs: seq<nat>, start: nat, n: nat)
    requires start + n <= |gs| && n > 0
    ensures Written(gs, start, n, start + n) == Written(gs, start, n, start) + "::"
  {
    assert gs[start + n..start + n] == [];
    assert Ip.Join([]) == "";
    hide Ip.Join;
  }

  lemma WrittenAll(gs: seq<nat>, start: nat, n: nat)
    requires |gs| == 8 && (if Ip.Best(gs, 0).1 >= 2 then (start, n) == Ip.Best(gs, 0) else n == 0) && start + n <= 8
    ensures Written(gs, start, n, 8) == Ip.PrintIpv6(gs)
  {
    hide Ip.Join, Ip.Best;
    assert gs[..8] == gs;
  }

  method PutGroup(b: TextBuffer, separate: bool, v: nat)
    requires b.Valid() && v < 0x10000
    modifies b, b.out
    ensures b.Valid() && b.text == old(b.text) + (if separate then ":" else "") + Ip.Numeral(v, 16)
  {
    assert Pow(16, 4) == 0x10000;
    hide Ip.Numeral;
    if separate { b.Put(':'); }
    b.PutNumeral(v, 16, 4);
  }

  /** The groups in turn, with "::" in place of the run from start. */
  method PutGroups(b: TextBuffer, gs: seq<nat>, start: nat, n: nat)
    requires b.Valid() && |gs| == 8 && Ip.Words(gs) && start + n <= 8
    modifies b, b.out
    ensures b.Valid() && b.text == old(b.text) + Written(gs, start, n, 8)
  {
    hide Ip.Numeral, Written;
    var separate, i := false, 0;
    WrittenNothing(gs, start, n);
    ghost var base := b.text;
    while i < 8
      invariant i <= 8 && b.Valid() && (n == 0 || i <= start || i >= start + n)
      invariant b.text == base + Written(gs, start, n, i)
      invariant separate == !(i == 0 || (n > 0 && i == start + n))
    {
      ghost var w := Written(gs, start, n, i);
      if n != 0 && i == start {
        WrittenGap(gs, start, n);
        b.PutAll("::");
        separate, i := false, i + n;
      } else {
        WrittenStep(gs, start, n, i);
        ghost var sep := if separate then ":" else "";
        PutGroup(b, separate, gs[i]);
        assert (base + w) + sep + Ip.Numeral(gs[i], 16) == base + (w + sep + Ip.Numeral(gs[i], 16));
        separate, i := true, i + 1;
      }
    }
  }

  /** multiaddr_write_ipv6 */
  method PutIpv6(b: TextBuffer, gs: seq<nat>)
    requires b.Valid() && |gs| == 8 && Ip.Words(gs)
    modifies b, b.out
    ensures b.Valid() && b.text == old(b.text) + Ip.PrintIpv6(gs)
  {
    Ip.BestIs(gs, 0);
    var start, n := FindRun(gs);
    if n == 0 { start := 0; }
    WrittenAll(gs, start, n);
    hide Ip.Best, Ip.PrintIpv6, Written;
    PutGroups(b, gs, start, n);
  }

  /** multiaddr_write_ipv4 */
  method PutIpv4(b: TextBuffer, x: seq<byte>)
    requires b.Valid() && x != []
    modifies b, b.out
    ensures b.Valid() && b.text == old(b.text) + Ip.PrintParts(x)
  {
    assert Pow(10, 3) == 1000;
    hide Ip.Numeral, Ip.PrintParts;
    ghost var base := b.text;
    b.PutNumeral(x[0], 10, 3);
    Ip.PrintCons(x[0], []);
    var i := 1;
    assert x[..1] == [x[0]];
    while i < |x|
      invariant 1 <= i <= |x| && b.Valid() && b.text == base + Ip.PrintParts(x[..i])
    {
      PartsSnoc(x[..i], x[i]);
      assert x[..i + 1] == x[..i] + [x[i]];
      b.Put('.');
      b.PutNumeral(x[i], 10, 3);
      Assoc2(base, Ip.PrintParts(x[..i]), Ip.Numeral(x[i], 10));
      i := i + 1;
    }
    assert x[..i] == x;
  }

  lemma Assoc2(a: string, b: string, c: string)
    ensures a + (b + ("." + c)) == ((a + b) + ['.']) + c
  {
  }

  lemma {:induction false} PartsSnoc(x: seq<byte>, v: byte)
    requires x != []
    ensures Ip.PrintParts(x + [v]) == Ip.PrintParts(x) + ("." + Ip.Numeral(v, 10))
  {
    hide Ip.Numeral;
    hide Ip.PrintParts;
    var h, t := x[0], x[1..];
    assert x == [h] + t && x + [v] == [h] + (t + [v]);
    Ip.PrintCons(h, t);
    Ip.PrintCons(h, t + [v]);
    if t == [] {
      assert x == [h] && t + [v] == [v];
      Ip.PrintCons(v, []);
    } else {
      PartsSnoc(t, v);
    }
  }

  /** The text written so far in front of the text of the rest. */
  ghost function Behind(t: string, r: Text): Text {
    match r
    case Text(u) => Text(t + u)
    case Unprintable => Unprintable
  }

  lemma PrintUnfold(c: Component, cs: seq<Component>, t: string)
    ensures Behind(t, Print([c] + cs)) ==
      if ComponentText(c).None? then Unprintable else Behind(t + ComponentText(c).value, Print(cs))
  {
    hide ComponentText;
    assert ([c] + cs)[1..] == cs;
    if ComponentText(c).Some? && Print(cs).Text? {
      assert t + (ComponentText(c).value + Print(cs).text) == (t + ComponentText(c).value) + Print(cs).text;
    }
  }

  /** One component, behind its slash and name */
  method PutComponent(b: TextBuffer, c: Component) returns (ok: bool)
    requires b.Valid() && Valid(c)
    modifies b, b.out
    ensures b.Valid() && ok == ComponentText(c).Some?
    ensures ok ==> b.text == old(b.text) + ComponentText(c).value
  {
    hide ValueText, NameOf, Multihash.Whole;
    ghost var base := b.text;
    b.Put('/');
    b.PutAll(NameOf(c.code));
    ok := true;
    if c.code == QUIC_V1 {
      assert (base + ['/']) + NameOf(c.code) == base + ("/" + NameOf(c.code));
    } else {
      ok := PutValue(b, c);
      if ok {
        ghost var v := ValueText(c).value;
        assert ((base + ['/']) + NameOf(c.code)) + ("/" + v) == base + ("/" + NameOf(c.code) + "/" + v);
      }
    }
  }

  method PutValue(b: TextBuffer, c: Component) returns (ok: bool)
    requires b.Valid() && Valid(c) && c.code != QUIC_V1
    modifies b, b.out
    ensures b.Valid() && ok == ValueText(c).Some?
    ensures ok ==> b.text == old(b.text) + ("/" + ValueText(c).value)
  {
    hide Multihash.Whole;
    ok := true;
    if c.code == P2P {
      var t := FormatPeer(c.value);
      if t.None? { return false; }
      b.Put('/');
      b.PutAll(t.value);
    } else {
      PutAddress(b, c);
    }
  }

  /** The letters of the scratch buffer as text, without the multibase prefix in front */
  method ScratchText(scratch: array<byte>, n: nat, ghost t: string) returns (u: string)
    requires 1 <= n == |t| <= scratch.Length && scratch[..n] == Base58Impl.Codes(t)
    requires forall i :: 0 <= i < n ==> t[i] as int < 256
    ensures u == t[1..]
  {
    u := "";
    var i := 1;
    while i < n
      invariant 1 <= i <= n && u == t[1..i]
    {
      assert scratch[i] == scratch[..n][i] == t[i] as int;
      u := u + [scratch[i] as char];
      i := i + 1;
    }
  }

  lemma LettersSmall(x: seq<byte>)
    ensures |Base58.Encode(x)| >= 1 && forall i :: 0 <= i < |Base58.Encode(x)| ==> Base58.Encode(x)[i] as int < 256
  {
    hide Radix.Value, Radix.Digits, Base58.Encode, Base58.Letter;
    var z, ds := Base58.ZerosIn(x), Radix.Digits(Radix.Value(x, 256), 58);
    Base58.EncodeParts(x, z, ds);
    forall i | 0 <= i < |ds| ensures Base58.Letters(ds)[i] as int < 256 { Base58.AlphabetOrder(ds[i]); }
  }

  /** multiaddr_format_peer_id, over a scratch buffer of 192 characters */
  method FormatPeer(x: seq<byte>) returns (t: Option<string>)
    ensures t == PeerText.Format(x)
  {
    hide Base58.Encode;
    if |x| > PeerText.MAX_PEER_BYTES { return None; }
    LettersSmall(x);
    var scratch := new byte[PeerText.MAX_PEER_TEXT];
    var err, n := Base58Impl.EncodeInto(x, scratch);
    if err != Base58Impl.Ok { return None; }
    var u := ScratchText(scratch, n, Base58.Encode(x));
    t := Some(u);
  }

  method PutAddress(b: TextBuffer, c: Component)
    requires b.Valid() && Fits(c) && c.code != QUIC_V1 && c.code != P2P
    modifies b, b.out
    ensures b.Valid() && ValueText(c).Some? && b.text == old(b.text) + ("/" + ValueText(c).value)
  {
    hide Ip.PrintParts, Ip.PrintIpv6, Ip.Numeral;
    ghost var base := b.text;
    b.Put('/');
    if c.code == IP4 {
      PutIpv4(b, c.value);
    } else if c.code == IP6 {
      PutIpv6(b, GroupsOf(c.value));
    } else {
      assert Pow(10, 5) == 100000;
      b.PutNumeral(Ip.Word(c.value[0], c.value[1]), 10, 5);
    }
    assert forall v: string :: (base + ['/']) + v == base + ("/" + v);
  }

  /**
    libp2p_multiaddr_to_string: the whole length is reported whether or not it fits, and the buffer holds the
    text when it does.
  */
  method ToString(buf: seq<byte>, out: array<char>) returns (err: Option<Error>, written: nat)
    modifies out
    ensures
      match Validate(buf)
      case Bad(e) => err == Some(e)
      case Ok(cs) =>
        match Print(cs)
        case Unprintable => err == Some(Malformed)
        case Text(t) =>
          written == |t| && (if |t| <= out.Length then err == None && out[..written] == t else err == Some(BufTooSmall))
  {
    var v := ValidateBuffer(buf);
    if v.Bad? { return Some(v.error), 0; }
    ValidateSound(buf);
    hide Validate, Flatten;
    var b := new TextBuffer(out);
    var ok := PutComponents(b, v.components);
    hide Print;
    written := b.pos;
    err := if !ok then Some(Malformed) else if out.Length < written then Some(BufTooSmall) else None;
  }

  method PutComponents(b: TextBuffer, cs: seq<Component>) returns (ok: bool)
    requires b.Valid() && b.text == "" && AllValid(cs)
    modifies b, b.out
    ensures b.Valid() && ok == Print(cs).Text? && (ok ==> Print(cs) == Text(b.text))
  {
    hide Print, ComponentText, Valid;
    var i := 0;
    assert cs[0..] == cs;
    BehindNothing(Print(cs));
    while i < |cs|
      invariant i <= |cs| && b.Valid() && Behind(b.text, Print(cs[i..])) == Print(cs)
    {
      assert cs[i..] == [cs[i]] + cs[i + 1..];
      PrintUnfold(cs[i], cs[i + 1..], b.text);
      ok := PutComponent(b, cs[i]);
      if !ok { return; }
      i := i + 1;
    }
    assert cs[i..] == [];
    PrintEmpty(b.text);
    ok := true;
  }

  lemma PrintEmpty(t: string)
    ensures Behind(t, Print([])) == Text(t)
  {
    assert t + "" == t;
  }

  lemma BehindNothing(r: Text)
    ensures Behind("", r) == r
  {
    if r.Text? { assert "" + r.text == r.text; }
  }

  // -------------------------------------------------------------------------- from text

  lemma {:induction false} SlashIs(t: string, k: nat)
    requires k <= |t| && (k < |t| ==> t[k] == '/') && forall i :: 0 <= i < k ==> t[i] != '/'
    ensures Slash(t) == k
  {
    if k > 0 { SlashIs(t[1..], k - 1); }
  }

  /** multiaddr_read_text_segment behind its slash */
  method ScanSlash(t: string) returns (k: nat)
    ensures k == Slash(t) && k <= |t| && (k < |t| ==> t[k] == '/')
  {
    k := 0;
    while k < |t| && t[k] != '/'
      invariant k <= |t| && forall i :: 0 <= i < k ==> t[i] != '/'
    {
      k := k + 1;
    }
    SlashIs(t, k);
  }

  /** The components read so far in front of the rest. */
  ghost function Ahead(cs: seq<Component>, r: Read): Read {
    match r
    case Components(ds) => Components(cs + ds)
    case fault => fault
  }

  lemma AheadStep(cs: seq<Component>, c: Component, r: Read)
    ensures Ahead([], r) == r && Ahead(cs, Prepend(c, r)) == Ahead(cs + [c], r)
    ensures Ahead(cs, Components([])) == Components(cs)
  {
    if r.Components? {
      assert [] + r.list == r.list;
      assert cs + ([c] + r.list) == (cs + [c]) + r.list;
    }
    assert cs + [] == cs;
  }

  /** Eight groups into sixteen bytes, the high byte of each first */
  method GroupBytes(gs: seq<nat>) returns (x: seq<byte>)
    requires |gs| == 8
    ensures x == BytesOf(gs)
  {
    x := [];
    var i := 0;
    while i < 8
      invariant i <= 8 && |x| == 2 * i && forall k :: 0 <= k < |x| ==> x[k] == BytesOf(gs)[k]
    {
      x := x + [gs[i] / 256 % 256, gs[i] % 256];
      i := i + 1;
    }
  }

  /** multiaddr_parse_legacy_peer_id: prefixed, decoded into 128 bytes, and one multihash */
  method ReadLegacyPeer(t: string) returns (x: Option<seq<byte>>)
    ensures x == PeerText.ParseLegacy(t)
  {
    hide Base58.Decode, Multihash.Whole;
    if |t| >= PeerText.MAX_PEER_TEXT { return None; }
    var peer := new byte[PeerText.MAX_PEER_BYTES];
    var err, n := Base58Impl.DecodeInto("z" + t, peer);
    if err != Base58Impl.Ok { return None; }
    var whole := ReadMultihash(peer[..n]);
    x := if whole then Some(peer[..n]) else None;
  }

  /** multiaddr_parse_text_component */
  method ReadValue(code: nat, t: string, cid: string -> Option<seq<byte>>) returns (x: Option<seq<byte>>)
    ensures x == ParseValue(code, t, cid)
  {
    hide Ip.ParseIpv4, Ip.ParseIpv6, Ip.Decimal, PeerText.ParseLegacy, BytesOf;
    x := None;
    if code == IP4 {
      x := ReadIpv4(t);
    } else if code == IP6 {
      var gs := ReadIpv6(t);
      if gs.Some? && |gs.value| == 8 {
        var y := GroupBytes(gs.value);
        x := Some(y);
      }
    } else if code == UDP {
      var v := ReadDecimal(t, 65535);
      if v.Some? { x := Some([v.value / 256 % 256, v.value % 256]); }
    } else if code == P2P {
      if PeerText.Legacy(t) { x := ReadLegacyPeer(t); } else { x := cid(t); }
    }
  }

  /** One turn of the loop */
  method ReadOne(t: string, cid: string -> Option<seq<byte>>) returns (step: Step)
    requires t != []
    ensures step == NextText(t, cid)
  {
    hide Slash, ParseValue, CodeOf;
    if t[0] != '/' { return Stop(Malformed); }
    var n := ScanSlash(t[1..]);
    if n == 0 { return Stop(Malformed); }
    var code := CodeOf(t[1..1 + n]);
    if code.None? { return Stop(UnsupportedProtocol); }
    if code.value == QUIC_V1 { return Go(Component(QUIC_V1, []), 1 + n); }
    if 1 + n == |t| { return Stop(Malformed); }
    var m := ScanSlash(t[2 + n..]);
    if m == 0 { return Stop(InvalidValue); }
    var x := ReadValue(code.value, t[2 + n..2 + n + m], cid);
    if x.None? { return Stop(InvalidValue); }
    step := Go(Component(code.value, x.value), 2 + n + m);
  }

  /** What reads CIDs yields whole multihashes, as multiaddr_parse_cid_peer_id checks. */
  ghost predicate Honest(cid: string -> Option<seq<byte>>) {
    forall t :: cid(t).Some? ==> |cid(t).value| < Varint.LIMIT && Multihash.Whole(cid(t).value)
  }

  lemma {:induction false} PartsLength(t: string, n: nat)
    requires n >= 1
    ensures Ip.ParseParts(t, n).Some? ==> |Ip.ParseParts(t, n).value| == n
    decreases n
  {
    hide Ip.Decimal, Ip.Until;
    var k := Ip.Until(t, false);
    if n > 1 && k < |t| { PartsLength(t[k + 1..], n - 1); }
  }

  /** A value that parses is one that its protocol accepts. */
  lemma ParsedValid(code: nat, t: string, cid: string -> Option<seq<byte>>)
    requires Honest(cid) && ParseValue(code, t, cid).Some?
    ensures Valid(Component(code, ParseValue(code, t, cid).value))
  {
    hide Ip.ParseParts, Ip.ParseIpv6, Ip.Decimal, Multihash.Whole;
    PartsLength(t, 4);
  }

  lemma StepValid(t: string, cid: string -> Option<seq<byte>>)
    requires t != [] && Honest(cid) && NextText(t, cid).Go?
    ensures Valid(NextText(t, cid).component)
  {
    hide ParseValue, Slash, CodeOf, Honest, Multihash.Whole;
    var n := Slash(t[1..]);
    if NextText(t, cid).component.code != QUIC_V1 {
      hide Valid;
      var m := Slash(t[2 + n..]);
      ParsedValid(CodeOf(t[1..1 + n]).value, t[2 + n..2 + n + m], cid);
    }
  }

  lemma ReadUnfold(t: string, cid: string -> Option<seq<byte>>, cs: seq<Component>)
    requires t != []
    ensures
      var r := NextText(t, cid);
      Ahead(cs, ReadAll(t, cid)) == if r.Stop? then Fault(r.error)
        else Ahead(cs + [r.component], ReadAll(t[r.read..], cid))
  {
    hide NextText;
    if NextText(t, cid).Go? {
      AheadStep(cs, NextText(t, cid).component, ReadAll(t[NextText(t, cid).read..], cid));
    }
  }

  /** What the buffer holds when the components cs have been appended, or that it was too small for them. */
  ghost predicate Appended(out: seq<byte>, pos: nat, short: bool, cs: seq<Component>) {
    && pos == |Flatten(cs)| && short == (pos > |out|) && (!short ==> out[..pos] == Flatten(cs))
  }

  method AppendNext(c: Component, out: array<byte>, pos: nat, short: bool, ghost cs: seq<Component>)
    returns (pos': nat, short': bool)
    requires Valid(c) && Appended(out[..], pos, short, cs)
    modifies out
    ensures Appended(out[..], pos', short', cs + [c])
  {
    FlattenConcat(cs, [c]);
    assert Flatten([c]) == ToBytes(c) by { FlattenCons(c, []); assert [c] + [] == [c]; }
    ghost var was := out[..];
    hide Flatten, ToBytes;
    var err;
    err, pos' := Append(c, out, if short then 0 else out.Length, pos);
    hide Valid;
    short' := short || err.Some?;
    if !short' {
      assert was[..pos] == out[..pos];
      assert out[..pos'] == out[..pos] + out[pos..pos'];
    }
  }

  /**
    libp2p_multiaddr_from_string: the whole length is reported whether or not it fits, a malformed text is
    reported before a lack of room, and the buffer holds the multiaddr when it fits.
  */
  method FromStringInto(t: string, out: array<byte>, cid: string -> Option<seq<byte>>)
    returns (err: Option<Error>, written: nat)
    requires Honest(cid)
    modifies out
    ensures
      match FromString(t, cid)
      case Fault(e) => err == Some(e)
      case Components(cs) =>
        && AllValid(cs) && written == |Flatten(cs)|
        && (if |Flatten(cs)| <= out.Length then err == None && out[..written] == Flatten(cs)
              else err == Some(BufTooSmall))
  {
    if t == [] || t[0] != '/' { return Some(Malformed), 0; }
    hide ReadAll, Valid, Honest, Flatten;
    var short;
    ghost var cs;
    err, written, short, cs := AppendAll(t, out, cid);
    if err.None? && short { err := Some(BufTooSmall); }
  }

  method AppendAll(t: string, out: array<byte>, cid: string -> Option<seq<byte>>)
    returns (err: Option<Error>, written: nat, short: bool, ghost cs: seq<Component>)
    requires Honest(cid)
    modifies out
    ensures AllValid(cs) && Appended(out[..], written, short, cs)
    ensures if err.Some? then ReadAll(t, cid) == Fault(err.value) else ReadAll(t, cid) == Components(cs)
  {
    EmptyFlatten([]);
    hide ReadAll, NextText, Honest, Valid, Flatten;
    var offset := 0;
    err, written, short, cs := None, 0, false, [];
    assert Appended(out[..], 0, false, []);
    hide Appended;
    assert t[0..] == t;
    AheadStep([], Component(0, []), ReadAll(t, cid));
    while offset < |t|
      invariant 0 <= offset <= |t| && AllValid(cs) && Appended(out[..], written, short, cs)
      invariant Ahead(cs, ReadAll(t[offset..], cid)) == ReadAll(t, cid)
      decreases |t| - offset
    {
      var u := t[offset..];
      ReadUnfold(u, cid, cs);
      var step := ReadOne(u, cid);
      if step.Stop? { return Some(step.error), written, short, cs; }
      StepValid(u, cid);
      written, short := AppendNext(step.component, out, written, short, cs);
      cs := cs + [step.component];
      assert t[offset + step.read..] == u[step.read..];
      offset := offset + step.read;
    }
    assert t[offset..] == [];
    ReadNothing(cid, cs);
  }

  lemma ReadNothing(cid: string -> Option<seq<byte>>, cs: seq<Component>)
    ensures Ahead(cs, ReadAll([], cid)) == Components(cs)
  {
    AheadStep(cs, Component(0, []), Components([]));
  }
}
