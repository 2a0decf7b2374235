/** The address parsers and writers as loops over text, a table of groups and an output buffer. */
module IpImpl {
  import opened Bytes
  import opened Radix
  import opened Ip

  // ------------------------------------------------------------------------- reading

  /** multiaddr_parse_decimal: the guard stops before the value would pass max. */
  method ReadDecimal(t: string, max: nat) returns (r: Option<nat>)
    requires max >= 9
    ensures r == Decimal(t, max) && (r.Some? ==> r.value <= max)
  {
    if t == [] { return None; }
    var parsed: nat, i := 0, 0;
    ghost var ds := Ranks(t);
    while i < |t|
      invariant i <= |t| && parsed == Value(ds[..i], 10) <= max
      invariant forall k :: 0 <= k < i ==> Rank(t[k]) < 10
    {
      var d := Rank(t[i]);
      if d >= 10 { return None; }
      assert ds[..i + 1][..i] == ds[..i];
      if parsed > (max - d) / 10 {
        PrefixSmaller(ds, i + 1, 10);
        return None;
      }
      parsed := parsed * 10 + d;
      i := i + 1;
    }
    assert ds[..i] == ds;
    r := Some(parsed);
  }

  /** The bytes read so far in front of what is still to be read. */
  ghost function After(x: seq<byte>, r: Option<seq<byte>>): Option<seq<byte>> {
    match r
    case Some(y) => Some(x + y)
    case None => None
  }

  lemma {:induction false} UntilStep(t: string, k: nat, colon: bool)
    requires k <= |t| && (forall i :: 0 <= i < k ==> t[i] != '.' && !(colon && t[i] == ':'))
    requires k < |t| ==> t[k] == '.' || (colon && t[k] == ':')
    ensures Until(t, colon) == k
  {
    if k > 0 { UntilStep(t[1..], k - 1, colon); }
  }

  method ScanUntil(t: string, colon: bool) returns (k: nat)
    ensures k == Until(t, colon) && k <= |t|
    ensures k < |t| ==> t[k] == '.' || (colon && t[k] == ':')
  {
    k := 0;
    while k < |t| && t[k] != '.' && !(colon && t[k] == ':')
      invariant k <= |t| && forall i :: 0 <= i < k ==> t[i] != '.' && !(colon && t[i] == ':')
    {
      k := k + 1;
    }
    UntilStep(t, k, colon);
  }

  lemma AfterStep(x: seq<byte>, v: byte, r: Option<seq<byte>>)
    ensures After([], r) == r && After(x, After([v], r)) == After(x + [v], r)
  {
    if r.Some? {
      assert [] + r.value == r.value;
      assert x + ([v] + r.value) == (x + [v]) + r.value;
    }
  }

  /** One dotted part */
  lemma PartsUnfold(u: string, n: nat, k: nat, v: byte)
    requires n >= 1 && k == Until(u, false) && Decimal(u[..k], 255) == Some(v)
    ensures n == 1 ==> ParseParts(u, n) == if k == |u| then Some([v]) else None
    ensures n > 1 ==> ParseParts(u, n) == if k == |u| then None else After([v], ParseParts(u[k + 1..], n - 1))
  {
    hide Decimal, Until;
  }

  lemma PartsFail(u: string, n: nat)
    requires n >= 1 && Decimal(u[..Until(u, false)], 255).None?
    ensures ParseParts(u, n).None?
  {
  }

  /** multiaddr_parse_ipv4 */
  method ReadIpv4(t: string) returns (r: Option<seq<byte>>)
    ensures r == ParseIpv4(t)
  {
    hide ParseParts, Decimal, Until;
    var part, start: nat := 0, 0;
    var x: seq<byte> := [];
    assert t[0..] == t;
    AfterStep([], 0, ParseParts(t, 4));
    while part < 3
      invariant part == |x| <= 3 && start <= |t|
      invariant After(x, ParseParts(t[start..], 4 - part)) == ParseIpv4(t)
    {
      var u := t[start..];
      var k := ScanUntil(u, false);
      var v := ReadDecimal(u[..k], 255);
      if v.None? {
        PartsFail(u, 4 - part);
        return None;
      }
      PartsUnfold(u, 4 - part, k, v.value);
      if k == |u| { return None; }
      AfterStep(x, v.value, ParseParts(u[k + 1..], 4 - part - 1));
      assert t[start + k + 1..] == u[k + 1..];
      start := start + k + 1;
      x := x + [v.value];
      part := part + 1;
    }
    var u := t[start..];
    var k := ScanUntil(u, false);
    var v := ReadDecimal(u[..k], 255);
    if v.None? {
      PartsFail(u, 1);
      return None;
    }
    PartsUnfold(u, 1, k, v.value);
    r := if k == |u| then Some(x + [v.value]) else None;
  }

  /** One to four hexadecimal figures, shifted in from the right */
  method ReadGroup(t: string) returns (r: Option<nat>)
    ensures r == HexGroup(t)
  {
    if t == [] { return None; }
    var value: nat, i := 0, 0;
    ghost var ds := Ranks(t);
    while i < |t|
      invariant i <= |t| && i <= 4 && value == Value(ds[..i], 16)
      invariant forall k :: 0 <= k < i ==> Rank(t[k]) < 16
    {
      if i >= 4 || Rank(t[i]) >= 16 { return None; }
      assert ds[..i + 1][..i] == ds[..i];
      value := value * 16 + Rank(t[i]);
      i := i + 1;
    }
    assert ds[..i] == ds;
    r := Some(value);
  }

  /** The groups behind the gap move to the end of the table, from the last one down. */
  method MoveGroups(groups: array<nat>, count: nat, gap: nat)
    requires groups.Length == 8 && gap <= count <= 8
    modifies groups
    ensures groups[..gap] == old(groups[..gap]) && groups[gap + 8 - count..] == old(groups[gap..count])
  {
    var zeros := 8 - count;
    ghost var was := groups[..];
    var i := count;
    while i > gap
      invariant gap <= i <= count
      invariant groups[..i] == was[..i] && groups[i + zeros..] == was[i..count]
    {
      assert groups[i - 1] == groups[..i][i - 1];
      groups[i + zeros - 1] := groups[i - 1];
      i := i - 1;
      assert groups[i + zeros..] == [was[i]] + was[i + 1..count];
      assert groups[..i] == was[..i + 1][..i];
    }
  }

  /** Then zeros fill the gap. */
  method FillGap(groups: array<nat>, count: nat, gap: nat)
    requires groups.Length == 8 && gap <= count <= 8
    modifies groups
    ensures Some(groups[..]) == Expand(Groups(old(groups[..count]), Some(gap)))
  {
    ghost var was := groups[..count];
    MoveGroups(groups, count, gap);
    ghost var front, tail := groups[..gap], groups[gap + 8 - count..];
    assert front == was[..gap] && tail == was[gap..];
    var i := 0;
    while i < 8 - count
      invariant i <= 8 - count && groups[..gap] == front && groups[gap + 8 - count..] == tail
      invariant forall j :: gap <= j < gap + i ==> groups[j] == 0
    {
      groups[gap + i] := 0;
      i := i + 1;
    }
    assert groups[gap..gap + 8 - count] == ZeroGroups(8 - count);
    assert groups[..] == groups[..gap] + groups[gap..gap + 8 - count] + groups[gap + 8 - count..];
  }

  // ------------------------------------------------------------------- the run of zeros

  lemma {:induction false} ZerosRun(gs: seq<nat>, i: nat, k: nat)
    requires i <= k <= |gs| && forall j :: i <= j < k ==> gs[j] == 0
    ensures ZerosAt(gs, i) == k - i + ZerosAt(gs, k)
    decreases k - i
  {
    if i < k { ZerosRun(gs, i + 1, k); }
  }

  lemma {:induction false} BestUnique(gs: seq<nat>, start: nat, n: nat)
    requires FirstLongest(gs, start, n) && n > 0
    ensures Best(gs, 0) == (start, n)
  {
    hide Best;
    BestIs(gs, 0);
    var (s, m) := Best(gs, 0);
    assert s < |gs| && start < |gs|;
    assert m == n;
  }

  /** Runs that ended before `from` are covered by the best one found so far. */
  ghost predicate BestBefore(gs: seq<nat>, from: nat, start: nat, n: nat) {
    && (forall j :: 0 <= j < from && j < |gs| ==> ZerosAt(gs, j) <= n)
    && (n > 0 ==> start < from && start + n <= |gs| && ZerosAt(gs, start) == n && forall j :: 0 <= j < start ==>
          ZerosAt(gs, j) < n)
  }

  lemma BestExtends(gs: seq<nat>, from: nat, start: nat, n: nat, end: nat)
    requires BestBefore(gs, from, start, n) && from < end <= |gs| && (end < |gs| ==> gs[end] != 0)
    requires forall j :: from <= j < end ==> gs[j] == 0
    ensures if end - from > n then BestBefore(gs, end, from, end - from) else BestBefore(gs, end, start, n)
  {
    forall j | from <= j < end ensures ZerosAt(gs, j) == end - j { ZerosRun(gs, j, end); }
  }

  /** The scan of multiaddr_write_ipv6 for the run to leave out */
  method FindRun(gs: seq<nat>) returns (start: nat, n: nat)
    ensures if Best(gs, 0).1 >= 2 then (start, n) == Best(gs, 0) else n == 0
  {
    start, n := 0, 0;
    var from, run, i := 0, 0, 0;
    while i < |gs|
      invariant i <= |gs| && from + run == i && forall j :: from <= j < i ==> gs[j] == 0
      invariant BestBefore(gs, from, start, n)
    {
      if gs[i] == 0 {
        run := run + 1;
      } else {
        if run > 0 { BestExtends(gs, from, start, n, i); }
        if run > n { start, n := from, run; }
        from, run := i + 1, 0;
        assert ZerosAt(gs, i) == 0;
      }
      i := i + 1;
    }
    if run > 0 { BestExtends(gs, from, start, n, i); }
    if run > n { start, n := from, run; }
    if n > 0 { BestUnique(gs, start, n); } else { BestIs(gs, 0); }
    if n < 2 { start, n := 0, 0; }
  }

  // ---------------------------------------------------------------------- reading IPv6

  /** One group of the text u, as the loop takes it. */
  lemma GroupsUnfold(u: string, g: Groups, k: nat, v: nat)
    requires u != [] && |g.values| < 8 && k == Until(u, true)
    requires (k == |u| || u[k] != '.') && HexGroup(u[..k]) == Some(v)
    ensures
      var h := g.(values := g.values + [v]);
      ParseGroups(u, g) ==
        if k == |u| then Some(h)
        else if k + 1 < |u| && u[k + 1] == ':' then
          if g.gap.Some? then None else ParseGroups(u[k + 2..], h.(gap := Some(|h.values|)))
        else if k + 1 == |u| then None
        else ParseGroups(u[k + 1..], h)
  {
    hide HexGroup, Until;
  }

  lemma GroupsFail(u: string, g: Groups)
    requires u != []
    requires (|g.values| >= 8
      || (!(Until(u, true) < |u| && u[Until(u, true)] == '.') && HexGroup(u[..Until(u, true)]).None?))
    ensures ParseGroups(u, g) == None
  {
    hide HexGroup, Until;
  }

  lemma GroupsTail(u: string, g: Groups)
    requires u != [] && |g.values| < 8 && Until(u, true) < |u| && u[Until(u, true)] == '.'
    ensures ParseGroups(u, g) == ParseTail(u, g)
  {
    hide Until;
  }

  /** An IPv4 address in the last two groups */
  method ReadTail(u: string, groups: array<nat>, count: nat, ghost gap: Option<nat>) returns (ok: bool)
    requires groups.Length == 8 && count < 8
    modifies groups
    ensures
      var r := ParseTail(u, Groups(old(groups[..count]), gap));
      ok == r.Some? && (ok ==> count + 2 <= 8 && r == Some(Groups(groups[..count + 2], gap)))
  {
    hide ParseIpv4;
    if count > 6 { return false; }
    var x := ReadIpv4(u);
    if x.None? || |x.value| != 4 { return false; }
    groups[count] := Word(x.value[0], x.value[1]);
    groups[count + 1] := Word(x.value[2], x.value[3]);
    ok := true;
    assert groups[..count + 2] == old(groups[..count]) + [groups[count], groups[count + 1]];
  }

  /** The loop of multiaddr_parse_ipv6: groups fill the table from the front. */
  method ReadGroups(t: string, groups: array<nat>, gap0: Option<nat>) returns (ok: bool, count: nat, gap: Option<nat>)
    requires groups.Length == 8
    modifies groups
    ensures count <= 8
    ensures
      var r := ParseGroups(t, Groups([], gap0));
      ok == r.Some? && (ok ==> r == Some(Groups(groups[..count], gap)))
  {
    hide ParseGroups, ParseTail, HexGroup, Until;
    ghost var goal := ParseGroups(t, Groups([], gap0));
    var pos: nat := 0;
    ok, count, gap := true, 0, gap0;
    assert t[0..] == t && groups[..0] == [];
    while pos < |t|
      invariant pos <= |t| && count <= 8
      invariant ParseGroups(t[pos..], Groups(groups[..count], gap)) == goal
      decreases |t| - pos
    {
      var u := t[pos..];
      ghost var g := Groups(groups[..count], gap);
      var k := ScanUntil(u, true);
      if count >= 8 {
        GroupsFail(u, g);
        return false, count, gap;
      }
      if k < |u| && u[k] == '.' {
        GroupsTail(u, g);
        ok := ReadTail(u, groups, count, gap);
        return ok, if ok then count + 2 else count, gap;
      }
      var v := ReadGroup(u[..k]);
      if v.None? {
        GroupsFail(u, g);
        return false, count, gap;
      }
      GroupsUnfold(u, g, k, v.value);
      groups[count] := v.value;
      count := count + 1;
      assert groups[..count] == g.values + [v.value];
      if k == |u| {
        return true, count, gap;
      } else if k + 1 < |u| && u[k + 1] == ':' {
        if gap.Some? { return false, count, gap; }
        gap := Some(count);
        assert t[pos + k + 2..] == u[k + 2..];
        pos := pos + k + 2;
      } else {
        if k + 1 == |u| { return false, count, gap; }
        assert t[pos + k + 1..] == u[k + 1..];
        pos := pos + k + 1;
      }
    }
    assert t[pos..] == "";
    NothingLeft(Groups(groups[..count], gap));
  }

  lemma {:induction false} GapWithin(t: string, g: Groups)
    requires g.gap.Some? ==> g.gap.value <= |g.values|
    ensures ParseGroups(t, g).Some? && ParseGroups(t, g).value.gap.Some? ==>
      ParseGroups(t, g).value.gap.value <= |ParseGroups(t, g).value.values|
    decreases |t|
  {
    if t != [] && |g.values| < 8 {
      var k := Until(t, true);
      if !(k < |t| && t[k] == '.') && HexGroup(t[..k]).Some? {
        var h := g.(values := g.values + [HexGroup(t[..k]).value]);
        GroupsUnfold(t, g, k, HexGroup(t[..k]).value);
        hide ParseGroups, HexGroup, Until;
        if k < |t| {
          if k + 1 < |t| && t[k + 1] == ':' {
            GapWithin(t[k + 2..], h.(gap := Some(|h.values|)));
          } else if k + 1 < |t| {
            GapWithin(t[k + 1..], h);
          }
        }
      }
    }
  }

  /** multiaddr_parse_ipv6, up to the split of groups into bytes */
  method ReadIpv6(t: string) returns (r: Option<seq<nat>>)
    ensures r == ParseIpv6(t)
  {
    hide ParseGroups;
    var groups := new nat[8](_ => 0);
    var from: nat, gap0: Option<nat> := 0, None;
    if t == [] { return None; }
    if t[0] == ':' {
      if |t| < 2 || t[1] != ':' { return None; }
      from, gap0 := 2, Some(0);
    }
    assert t[0..] == t;
    GapWithin(t[from..], Groups([], gap0));
    var ok, count, gap := ReadGroups(t[from..], groups, gap0);
    if !ok { return None; }
    if gap.Some? {
      FillGap(groups, count, gap.value);
      r := Some(groups[..]);
    } else if count == 8 {
      assert groups[..8] == groups[..];
      r := Some(groups[..]);
    } else {
      r := None;
    }
  }

  // -------------------------------------------------------------------------- writing

  /** A text written into a buffer that may be too short: characters beyond its end are only counted. */
  class TextBuffer {
    const out: array<char>
    var pos: nat
    ghost var text: string

    ghost predicate Valid()
      reads this, out
    {
      pos == |text| && forall i :: 0 <= i < pos && i < out.Length ==> out[i] == text[i]
    }

    constructor (out: array<char>)
      ensures Valid() && this.out == out && text == ""
    {
      this.out := out;
      pos, text := 0, "";
    }

    /** multiaddr_write_char */
    method Put(c: char)
      requires Valid()
      modifies this, out
      ensures Valid() && text == old(text) + [c]
    {
      if pos < out.Length { out[pos] := c; }
      pos := pos + 1;
      text := text + [c];
    }

    /** multiaddr_write_bytes */
    method PutAll(t: string)
      requires Valid()
      modifies this, out
      ensures Valid() && text == old(text) + t
    {
      var i := 0;
      while i < |t|
        invariant i <= |t| && Valid() && text == old(text) + t[..i]
      {
        Put(t[i]);
        i := i + 1;
        assert t[..i] == t[..i - 1] + [t[i - 1]];
      }
      assert t[..i] == t;
    }

    /** multiaddr_write_decimal_u32 and multiaddr_write_hex_group: figures come out last first. */
    method PutNumeral(v: nat, b: nat, cap: nat)
      requires Valid() && 2 <= b <= 16 && cap >= 1 && v < Pow(b, cap)
      modifies this, out
      ensures Valid() && text == old(text) + Numeral(v, b)
    {
      var figures, count := ScratchFigures(v, b, cap);
      ghost var n := count;
      ghost var numeral := Numeral(v, b);
      hide Numeral;
      while count != 0
        invariant fresh(figures) && 0 <= count <= n == |numeral| <= figures.Length
        invariant Valid() && text == old(text) + numeral[..n - count]
        invariant forall k :: 0 <= k < n ==> figures[n - 1 - k] == numeral[k]
      {
        count := count - 1;
        Put(figures[count]);
        assert figures[n - 1 - (n - 1 - count)] == numeral[n - 1 - count];
        assert numeral[..n - count] == numeral[..n - count - 1] + [numeral[n - count - 1]];
      }
      assert numeral[..n] == numeral;
    }

    /** The scratch figures, least significant first */
    static method ScratchFigures(v: nat, b: nat, cap: nat) returns (figures: array<char>, count: nat)
      requires 2 <= b <= 16 && cap >= 1 && v < Pow(b, cap)
      ensures fresh(figures) && count == |Numeral(v, b)| <= figures.Length
      ensures forall k :: 0 <= k < count ==> figures[count - 1 - k] == Numeral(v, b)[k]
    {
      NumeralReads(v, b, cap);
      if v == 0 {
        figures, count := new char[cap](_ => '0'), 1;
      } else {
        DigitsDenote(v, b);
        ghost var ds := Digits(v, b);
        assert Numeral(v, b) == Figures(ds);
        hide Numeral, Digits;
        figures, count := ScratchDigits(v, b, cap, ds);
      }
    }

    static method ScratchDigits(v: nat, b: nat, cap: nat, ghost ds: seq<nat>) returns (figures: array<char>, count: nat)
      requires 2 <= b <= 16 && Digits(v, b) == ds && |ds| <= cap && Below(ds, 16)
      ensures fresh(figures) && count == |ds| <= figures.Length
      ensures forall k :: 0 <= k < count ==> figures[count - 1 - k] == Figure(ds[k])
    {
      hide Digits;
      figures := new char[cap](_ => '0');
      count := 0;
      var left: nat := v;
      assert ds[..|ds| - 0] == ds;
      while left != 0
        invariant count <= |ds| && Digits(left, b) == ds[..|ds| - count]
        invariant forall k :: 0 <= k < count ==> figures[k] == Figure(ds[|ds| - 1 - k])
        decreases left
      {
        var q, r := NextDigit(left, b, ds[..|ds| - count]);
        assert ds[..|ds| - count][..|ds| - count - 1] == ds[..|ds| - count - 1];
        figures[count] := Figure(r);
        count := count + 1;
        left := q;
      }
      NoDigits(b);
    }
  }

  method NextDigit(n: nat, b: nat, ghost ds: seq<nat>) returns (q: nat, r: nat)
    requires n > 0 && 2 <= b <= 16 && Digits(n, b) == ds
    ensures ds != [] && r == ds[|ds| - 1] < b && Digits(q, b) == ds[..|ds| - 1] && q < n
  {
    ghost var q', r' := DigitsSnoc(n, b);
    hide Digits;
    Quotient(q', r', b);
    q, r := n / b, n % b;
  }
}
