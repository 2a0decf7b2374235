/** Decimal and hexadecimal numerals, IPv4 and IPv6 addresses as text. */
module Ip {
  import opened Bytes
  import opened Radix

  // ------------------------------------------------------------------------ numerals

  function Figure(d: nat): char
    requires d < 16
  {
    if d < 10 then '0' + d as char else 'a' + (d - 10) as char
  }

  /** multiaddr_hex_value; 16 says that the character is no figure. */
  function Rank(c: char): (d: nat)
    ensures d <= 16
  {
    if '0' <= c <= '9' then c as int - '0' as int
    else if 'a' <= c <= 'f' then c as int - 'a' as int + 10
    else if 'A' <= c <= 'F' then c as int - 'A' as int + 10
    else 16
  }

  function Figures(ds: seq<nat>): (t: string)
    requires Below(ds, 16)
    ensures |t| == |ds| && forall i :: 0 <= i < |t| ==> t[i] == Figure(ds[i])
  {
    seq(|ds|, i requires 0 <= i < |ds| => Figure(ds[i]))
  }

  function Ranks(t: string): (ds: seq<nat>)
    ensures |ds| == |t| && forall i :: 0 <= i < |t| ==> ds[i] == Rank(t[i])
  {
    seq(|t|, i requires 0 <= i < |t| => Rank(t[i]))
  }

  /** What the writers print: no leading zeros, lower case, and "0" for zero. */
  function Numeral(v: nat, b: nat): string
    requires 2 <= b <= 16
  {
    if v == 0 then "0"
    else
      DigitsDenote(v, b);
      Figures(Digits(v, b))
  }

  /** Lower-case figures of base b, so no separator among them. */
  predicate Plain(t: string, b: nat) {
    forall i :: 0 <= i < |t| ==>
      Rank(t[i]) < b && !('A' <= t[i] <= 'F') && t[i] != ':' && t[i] != '.' && t[i] != '/'
  }

  lemma RanksOfFigures(ds: seq<nat>, b: nat)
    requires b <= 16 && Below(ds, b)
    ensures Plain(Figures(ds), b) && Ranks(Figures(ds)) == ds
  {
  }

  /** Reading a numeral gives the number back; it is as short as can be. */
  lemma NumeralReads(v: nat, b: nat, k: nat)
    requires 2 <= b <= 16 && v < Pow(b, k) && k >= 1
    ensures Plain(Numeral(v, b), b) && Value(Ranks(Numeral(v, b)), b) == v && 1 <= |Numeral(v, b)| <= k
    ensures |Numeral(v, b)| > 1 ==> Numeral(v, b)[0] != '0'
  {
    if v == 0 {
      assert Ranks("0") == [0];
    } else {
      var ds := Digits(v, b);
      DigitsDenote(v, b);
      DigitsLength(v, b, k);
      hide Digits, Value;
      RanksOfFigures(ds, b);
    }
  }

  // ---------------------------------------------------------------------------- IPv4

  /** multiaddr_parse_decimal */
  function Decimal(t: string, max: nat): Option<nat> {
    if t == [] || (exists i :: 0 <= i < |t| && Rank(t[i]) >= 10) || Value(Ranks(t), 10) > max then None
    else Some(Value(Ranks(t), 10))
  }

  /** Where the first '.' (or, with `colon`, the first ':' or '.') stands, or the length. */
  function Until(t: string, colon: bool): (k: nat)
    ensures k <= |t|
  {
    if t == [] || t[0] == '.' || (colon && t[0] == ':') then 0 else 1 + Until(t[1..], colon)
  }

  /** No separator in it */
  predicate Clear(p: string) {
    forall i :: 0 <= i < |p| ==> p[i] != ':' && p[i] != '.'
  }

  lemma {:induction false} UntilClear(p: string, rest: string, colon: bool)
    requires Clear(p) && (rest != [] ==> rest[0] == '.' || (colon && rest[0] == ':'))
    ensures Until(p + rest, colon) == |p|
  {
    if p == [] {
      assert p + rest == rest;
    } else {
      UntilClear(p[1..], rest, colon);
      assert (p + rest)[1..] == p[1..] + rest;
    }
  }

  /** n dotted parts, each at most 255 */
  function ParseParts(t: string, n: nat): Option<seq<byte>>
    requires n >= 1
    decreases n
  {
    var k := Until(t, false);
    match Decimal(t[..k], 255)
    case None => None
    case Some(v) =>
      if n == 1 then if k == |t| then Some([v]) else None
      else if k == |t| then None
      else
        match ParseParts(t[k + 1..], n - 1)
        case None => None
        case Some(x) => Some([v] + x)
  }

  /** multiaddr_parse_ipv4 */
  function ParseIpv4(t: string): Option<seq<byte>> { ParseParts(t, 4) }

  /** multiaddr_write_ipv4 */
  function PrintParts(x: seq<byte>): string
    requires x != []
  {
    if |x| == 1 then Numeral(x[0], 10) else Numeral(x[0], 10) + "." + PrintParts(x[1..])
  }

  lemma OneByte(v: byte)
    ensures Decimal(Numeral(v, 10), 255) == Some(v) && Plain(Numeral(v, 10), 10)
  {
    hide Numeral, Value, Ranks;
    assert Pow(10, 3) == 1000;
    NumeralReads(v, 10, 3);
  }

  lemma DecimalClear(p: string, max: nat)
    requires Decimal(p, max).Some?
    ensures Clear(p) && p != []
  {
    hide Value;
    forall i | 0 <= i < |p| ensures p[i] != ':' && p[i] != '.' { assert Rank(p[i]) < 10; }
  }

  /** Any spelling of the last part, and of one with others behind it */
  lemma LastPart(p: string, v: byte)
    requires Decimal(p, 255) == Some(v)
    ensures ParseParts(p, 1) == Some([v])
  {
    hide Decimal, Until, Clear;
    DecimalClear(p, 255);
    assert p + "" == p && p[..|p|] == p;
    UntilClear(p, "", false);
  }

  lemma FirstPart(p: string, v: byte, rest: string, n: nat, x: seq<byte>)
    requires Decimal(p, 255) == Some(v) && n >= 2 && ParseParts(rest, n - 1) == Some(x)
    ensures ParseParts(p + ("." + rest), n) == Some([v] + x)
  {
    hide Decimal, ParseParts, Until, Clear;
    DecimalClear(p, 255);
    UntilClear(p, "." + rest, false);
    PartsStep(p, rest, n, v, x);
  }

  lemma PrintCons(v: byte, x: seq<byte>)
    ensures PrintParts([v]) == Numeral(v, 10)
    ensures x != [] ==> PrintParts([v] + x) == Numeral(v, 10) + ("." + PrintParts(x))
  {
    hide Numeral;
    assert ([v] + x)[1..] == x;
  }

  lemma {:induction false} PartsRoundTrip(x: seq<byte>)
    requires x != []
    ensures ParseParts(PrintParts(x), |x|) == Some(x)
  {
    hide ParseParts, PrintParts, Numeral;
    var v, tail := x[0], x[1..];
    PrintCons(v, tail);
    assert x == [v] + tail;
    if tail == [] {
      assert x == [v];
      OneByte(v);
      LastPart(Numeral(v, 10), v);
    } else {
      PartsRoundTrip(tail);
      OneByte(v);
      FirstPart(Numeral(v, 10), v, PrintParts(tail), |x|, tail);
    }
  }

  lemma PartsStep(p: string, rest: string, n: nat, d: byte, x: seq<byte>)
    requires n >= 2 && Until(p + ("." + rest), false) == |p|
    requires Decimal(p, 255) == Some(d) && ParseParts(rest, n - 1) == Some(x)
    ensures ParseParts(p + ("." + rest), n) == Some([d] + x)
  {
    hide Decimal, Until;
    var t := p + ("." + rest);
    assert t[..|p|] == p && t[|p| + 1..] == rest;
  }

  /** parse(print(x)) = x for every IPv4 address. */
  lemma Ipv4RoundTrip(x: seq<byte>)
    requires |x| == 4
    ensures ParseIpv4(PrintParts(x)) == Some(x)
  {
    PartsRoundTrip(x);
  }

  // ---------------------------------------------------------------------------- IPv6

  /** One to four hexadecimal figures. */
  function HexGroup(t: string): Option<nat> {
    if t == [] || |t| > 4 || (exists i :: 0 <= i < |t| && Rank(t[i]) >= 16) then None else Some(Value(Ranks(t), 16))
  }

  /** The groups read so far, and after how many of them the "::" stood. */
  datatype Groups = Groups(values: seq<nat>, gap: Option<nat>)

  /** The loop of multiaddr_parse_ipv6, on what is left of the text */
  function ParseGroups(t: string, g: Groups): Option<Groups>
    decreases |t|
  {
    if t == [] then Some(g)
    else if |g.values| >= 8 then None
    else
      var k := Until(t, true);
      if k < |t| && t[k] == '.' then ParseTail(t, g)
      else
        match HexGroup(t[..k])
        case None => None
        case Some(v) =>
          var h := g.(values := g.values + [v]);
          if k == |t| then Some(h)
          else if k + 1 < |t| && t[k + 1] == ':' then
            if g.gap.Some? then None else ParseGroups(t[k + 2..], h.(gap := Some(|h.values|)))
          else if k + 1 == |t| then None
          else ParseGroups(t[k + 1..], h)
  }

  function Word(high: byte, low: byte): nat { high as int * 256 + low as int }

  /** An IPv4 address in place of the last two groups */
  function ParseTail(t: string, g: Groups): Option<Groups> {
    if |g.values| > 6 then None
    else
      match ParseIpv4(t)
      case None => None
      case Some(x) => if |x| != 4 then None else Some(g.(values := g.values + [Word(x[0], x[1]), Word(x[2], x[3])]))
  }

  function ZeroGroups(n: nat): (s: seq<nat>)
    ensures |s| == n && forall i :: 0 <= i < n ==> s[i] == 0
  {
    seq(n, _ => 0)
  }

  /** The groups behind the gap move to the end, zeros fill it. */
  function Expand(g: Groups): Option<seq<nat>> {
    match g.gap
    case None => if |g.values| == 8 then Some(g.values) else None
    case Some(k) =>
      if |g.values| > 8 || k > |g.values| then None
      else Some(g.values[..k] + ZeroGroups(8 - |g.values|) + g.values[k..])
  }

  function ParseIpv6(t: string): Option<seq<nat>> {
    var start :=
      if t == [] then None
      else if t[0] == ':' then
        if |t| < 2 || t[1] != ':' then None else ParseGroups(t[2..], Groups([], Some(0)))
      else ParseGroups(t, Groups([], None));
    match start
    case None => None
    case Some(g) => Expand(g)
  }

  // --------------------------------------------------------------- the canonical text

  /** How many zero groups start at i. */
  function ZerosAt(gs: seq<nat>, i: nat): (n: nat)
    ensures i <= |gs| ==> i + n <= |gs|
    ensures forall k :: i <= k < i + n && k < |gs| ==> gs[k] == 0
    decreases |gs| - i
  {
    if i < |gs| && gs[i] == 0 then 1 + ZerosAt(gs, i + 1) else 0
  }

  /** Section 4.2.3 of RFC 5952: a longest run of zeros, and the first such. */
  ghost predicate FirstLongest(gs: seq<nat>, start: nat, n: nat) {
    && start + n <= |gs| && n == ZerosAt(gs, start)
    && (forall j :: 0 <= j < |gs| ==> ZerosAt(gs, j) <= n)
    && (forall j :: 0 <= j < start ==> ZerosAt(gs, j) < n)
  }

  /** The run that is written "::": the first longest, if it has at least two groups (section 4.2.2). */
  function Best(gs: seq<nat>, i: nat): (nat, nat)
    decreases |gs| - i
  {
    if i >= |gs| then (i, 0)
    else if ZerosAt(gs, i) >= Best(gs, i + 1).1 then (i, ZerosAt(gs, i))
    else Best(gs, i + 1)
  }

  lemma {:induction false} BestIs(gs: seq<nat>, i: nat)
    requires i <= |gs|
    ensures
      var (start, n) := Best(gs, i);
      && i <= start && start + n <= |gs| && n == ZerosAt(gs, start)
      && (forall j :: i <= j < |gs| ==> ZerosAt(gs, j) <= n)
      && (forall j :: i <= j < start ==> ZerosAt(gs, j) < n)
    decreases |gs| - i
  {
    if i < |gs| { BestIs(gs, i + 1); }
  }

  function Join(gs: seq<nat>): string {
    if gs == [] then "" else if |gs| == 1 then Numeral(gs[0], 16) else Numeral(gs[0], 16) + ":" + Join(gs[1..])
  }

  /** multiaddr_write_ipv6 */
  function PrintIpv6(gs: seq<nat>): string {
    var (start, n) := Best(gs, 0);
    if n < 2 || start + n > |gs| then Join(gs) else Join(gs[..start]) + "::" + Join(gs[start + n..])
  }

  // ---------------------------------------------------------------------- round trip

  predicate Words(gs: seq<nat>) {
    forall i :: 0 <= i < |gs| ==> gs[i] < 0x10000
  }

  lemma OneGroup(v: nat)
    requires v < 0x10000
    ensures HexGroup(Numeral(v, 16)) == Some(v) && Plain(Numeral(v, 16), 16) && Numeral(v, 16) != []
  {
    hide Numeral, Value, Ranks;
    assert Pow(16, 4) == 0x10000;
    NumeralReads(v, 16, 4);
  }

  lemma HexClear(p: string)
    requires HexGroup(p).Some?
    ensures Clear(p) && p != []
  {
    hide Value;
    forall i | 0 <= i < |p| ensures p[i] != ':' && p[i] != '.' { assert Rank(p[i]) < 16; }
  }

  /** One group in any spelling, followed by nothing, by one colon or by two. */
  lemma GroupEnds(p: string, v: nat, g: Groups)
    requires HexGroup(p) == Some(v) && |g.values| < 8
    ensures ParseGroups(p, g) == Some(g.(values := g.values + [v]))
  {
    hide HexGroup, Until, Clear;
    HexClear(p);
    UntilClear(p, "", true);
    assert p + "" == p && p[..|p|] == p;
  }

  lemma GroupThen(p: string, v: nat, g: Groups, rest: string)
    requires HexGroup(p) == Some(v) && |g.values| < 8 && rest != [] && rest[0] != ':'
    ensures ParseGroups(p + (":" + rest), g) == ParseGroups(rest, g.(values := g.values + [v]))
  {
    hide HexGroup, Until, Clear;
    HexClear(p);
    var t := p + (":" + rest);
    UntilClear(p, ":" + rest, true);
    assert t[..|p|] == p && t[|p|] == ':' && t[|p| + 1..] == rest;
    assert t[|p| + 1] == rest[0];
  }

  lemma GroupThenGap(p: string, v: nat, g: Groups, rest: string)
    requires HexGroup(p) == Some(v) && |g.values| < 8 && g.gap.None?
    ensures ParseGroups(p + ("::" + rest), g) == ParseGroups(rest, Groups(g.values + [v], Some(|g.values| + 1)))
  {
    hide HexGroup, Until, Clear;
    HexClear(p);
    var t := p + ("::" + rest);
    UntilClear(p, "::" + rest, true);
    assert t[..|p|] == p && t[|p|] == ':' && t[|p| + 1] == ':' && t[|p| + 2..] == rest;
  }

  // ------------------------------------------------------------ groups in any spelling

  /** The pieces with a colon between each two */
  function Sep(ps: seq<string>): string {
    if ps == [] then "" else if |ps| == 1 then ps[0] else ps[0] + ":" + Sep(ps[1..])
  }

  predicate Hexes(ps: seq<string>) {
    forall i :: 0 <= i < |ps| ==> HexGroup(ps[i]).Some?
  }

  /** What the pieces spell */
  function Vals(ps: seq<string>): (vs: seq<nat>)
    requires Hexes(ps)
    ensures |vs| == |ps| && forall i :: 0 <= i < |ps| ==> HexGroup(ps[i]) == Some(vs[i])
  {
    seq(|ps|, i requires 0 <= i < |ps| => HexGroup(ps[i]).value)
  }

  lemma SepCons(p: string, ps: seq<string>)
    ensures Sep([p]) == p
    ensures ps != [] ==> Sep([p] + ps) == p + (":" + Sep(ps))
  {
    assert ([p] + ps)[1..] == ps;
  }

  /** What the pieces spell does not begin with a colon when the first does not. */
  lemma SepHead(ps: seq<string>)
    requires ps != [] && ps[0] != [] && ps[0][0] != ':'
    ensures Sep(ps) != [] && Sep(ps)[0] != ':'
  {
  }

  lemma ValsCons(p: string, ps: seq<string>)
    requires HexGroup(p).Some? && Hexes(ps)
    ensures Hexes([p] + ps) && Vals([p] + ps) == [HexGroup(p).value] + Vals(ps)
  {
    hide HexGroup;
  }

  lemma NothingLeft(g: Groups)
    ensures Sep([]) == "" && Vals([]) == [] && ParseGroups("", g) == Some(g)
  {
  }

  lemma {:induction false} PiecesRead(ps: seq<string>, g: Groups)
    requires Hexes(ps) && |g.values| + |ps| <= 8
    ensures ParseGroups(Sep(ps), g) == Some(g.(values := g.values + Vals(ps)))
    decreases |ps|
  {
    hide HexGroup, ParseGroups, Sep, Vals;
    if ps == [] {
      NothingLeft(g);
      assert g.values + [] == g.values;
    } else {
      var p, tail := ps[0], ps[1..];
      assert ps == [p] + tail;
      SepCons(p, tail);
      ValsCons(p, tail);
      var v := HexGroup(p).value;
      if tail == [] {
        NothingLeft(g);
        assert ps == [p] && [v] + [] == [v];
        GroupEnds(p, v, g);
      } else {
        HexClear(tail[0]);
        SepHead(tail);
        GroupThen(p, v, g, Sep(tail));
        PiecesRead(tail, g.(values := g.values + [v]));
        assert (g.values + [v]) + Vals(tail) == g.values + Vals(ps);
      }
    }
  }

  lemma Reassociate(p: string, q: string, rest: string)
    ensures (p + (":" + q)) + ("::" + rest) == p + (":" + (q + ("::" + rest)))
  {
  }

  lemma {:induction false} PiecesThenGap(ps: seq<string>, g: Groups, rest: string)
    requires Hexes(ps) && ps != [] && |g.values| + |ps| <= 8 && g.gap.None?
    ensures ParseGroups(Sep(ps) + ("::" + rest), g) ==
      ParseGroups(rest, Groups(g.values + Vals(ps), Some(|g.values| + |ps|)))
    decreases |ps|
  {
    hide HexGroup, ParseGroups, Sep, Vals;
    var p, tail := ps[0], ps[1..];
    assert ps == [p] + tail;
    SepCons(p, tail);
    ValsCons(p, tail);
    var v := HexGroup(p).value;
    if tail == [] {
      NothingLeft(g);
      assert ps == [p] && [v] + [] == [v];
      GroupThenGap(p, v, g, rest);
    } else {
      HexClear(tail[0]);
      SepHead(tail);
      GroupThen(p, v, g, Sep(tail) + ("::" + rest));
      PiecesThenGap(tail, g.(values := g.values + [v]), rest);
      Reassociate(p, Sep(tail), rest);
      assert (g.values + [v]) + Vals(tail) == g.values + Vals(ps);
    }
  }

  // ------------------------------------------------------------------- printed groups

  function Numerals(gs: seq<nat>): (ps: seq<string>)
    ensures |ps| == |gs| && forall i :: 0 <= i < |gs| ==> ps[i] == Numeral(gs[i], 16)
  {
    seq(|gs|, i requires 0 <= i < |gs| => Numeral(gs[i], 16))
  }

  lemma {:induction false} JoinIsSep(gs: seq<nat>)
    ensures Join(gs) == Sep(Numerals(gs))
    decreases |gs|
  {
    hide Numeral;
    if gs != [] {
      JoinIsSep(gs[1..]);
      assert Numerals(gs)[1..] == Numerals(gs[1..]);
    }
  }

  lemma NumeralsSpell(gs: seq<nat>)
    requires Words(gs)
    ensures Hexes(Numerals(gs)) && Vals(Numerals(gs)) == gs
  {
    hide HexGroup, Numeral;
    forall i | 0 <= i < |gs| ensures HexGroup(Numerals(gs)[i]) == Some(gs[i]) { OneGroup(gs[i]); }
  }

  lemma JoinCons(v: nat, gs: seq<nat>)
    ensures Join([v]) == Numeral(v, 16)
    ensures gs != [] ==> Join([v] + gs) == Numeral(v, 16) + (":" + Join(gs))
  {
    hide Numeral;
    assert ([v] + gs)[1..] == gs;
  }

  lemma JoinHead(gs: seq<nat>)
    requires gs != [] && Words(gs)
    ensures Join(gs) != [] && Join(gs)[0] != ':'
  {
    hide Numeral, HexGroup;
    OneGroup(gs[0]);
    HexClear(Numeral(gs[0], 16));
  }

  lemma JoinReads(gs: seq<nat>, g: Groups)
    requires Words(gs) && |g.values| + |gs| <= 8
    ensures ParseGroups(Join(gs), g) == Some(g.(values := g.values + gs))
  {
    hide Join, Sep, ParseGroups, Hexes, Vals;
    JoinIsSep(gs);
    NumeralsSpell(gs);
    PiecesRead(Numerals(gs), g);
  }

  lemma JoinThenGap(gs: seq<nat>, g: Groups, rest: string)
    requires Words(gs) && gs != [] && |g.values| + |gs| <= 8 && g.gap.None?
    ensures ParseGroups(Join(gs) + ("::" + rest), g) ==
      ParseGroups(rest, Groups(g.values + gs, Some(|g.values| + |gs|)))
  {
    hide Join, Sep, ParseGroups, Hexes, Vals;
    JoinIsSep(gs);
    NumeralsSpell(gs);
    PiecesThenGap(Numerals(gs), g, rest);
  }

  /** "::" in front of the groups b */
  lemma LeadingGapReads(b: seq<nat>)
    requires Words(b) && |b| < 8
    ensures ParseIpv6("::" + Join(b)) == Expand(Groups(b, Some(0)))
  {
    hide Numeral, ParseGroups, Join, Expand;
    var t := "::" + Join(b);
    assert t[2..] == Join(b);
    JoinReads(b, Groups([], Some(0)));
    assert [] + b == b;
  }

  /** "::" between the groups a and b */
  lemma InnerGapReads(a: seq<nat>, b: seq<nat>)
    requires Words(a) && Words(b) && a != [] && |a| + |b| < 8
    ensures ParseIpv6(Join(a) + ("::" + Join(b))) == Expand(Groups(a + b, Some(|a|)))
  {
    hide Numeral, ParseGroups, Join, Expand;
    JoinHead(a);
    JoinThenGap(a, Groups([], None), Join(b));
    JoinReads(b, Groups(a, Some(|a|)));
    assert [] + a == a;
  }

  lemma GapReads(gs: seq<nat>, start: nat, n: nat)
    requires Words(gs) && |gs| == 8 && 1 <= n && start + n <= 8
    ensures ParseIpv6(Join(gs[..start]) + "::" + Join(gs[start + n..])) ==
      Expand(Groups(gs[..start] + gs[start + n..], Some(start)))
  {
    hide ParseIpv6, Expand, Join;
    var a, b := gs[..start], gs[start + n..];
    if start == 0 {
      LeadingGapReads(b);
      JoinNothing();
      assert a == [] && a + b == b && "" + "::" == "::";
    } else {
      InnerGapReads(a, b);
      assert Join(a) + "::" + Join(b) == Join(a) + ("::" + Join(b));
    }
  }

  lemma JoinNothing()
    ensures Join([]) == ""
  {
  }

  lemma FillGap(gs: seq<nat>, start: nat, n: nat)
    requires |gs| == 8 && start + n <= 8 && forall k :: start <= k < start + n ==> gs[k] == 0
    ensures Expand(Groups(gs[..start] + gs[start + n..], Some(start))) == Some(gs)
  {
    var vs := gs[..start] + gs[start + n..];
    assert vs[..start] == gs[..start] && vs[start..] == gs[start + n..];
    assert gs == gs[..start] + ZeroGroups(n) + gs[start + n..];
  }

  /** The run left out of the text is the first longest run of zero groups, and only if it has two or more. */
  lemma Canonical(gs: seq<nat>) returns (start: nat, n: nat)
    requires |gs| == 8
    ensures FirstLongest(gs, start, n) && forall k :: start <= k < start + n ==> gs[k] == 0
    ensures PrintIpv6(gs) == if n < 2 then Join(gs) else Join(gs[..start]) + "::" + Join(gs[start + n..])
  {
    hide Best, Join, ZerosAt;
    BestIs(gs, 0);
    start, n := Best(gs, 0).0, Best(gs, 0).1;
  }

  /** Sections 4.1 and 4.3 of RFC 5952: no leading zeros, lower case. */
  lemma GroupsAreShort(v: nat)
    requires v < 0x10000
    ensures Plain(Numeral(v, 16), 16) && 1 <= |Numeral(v, 16)| <= 4
    ensures |Numeral(v, 16)| > 1 ==> Numeral(v, 16)[0] != '0'
  {
    assert Pow(16, 4) == 0x10000;
    NumeralReads(v, 16, 4);
  }

  /** parse(print(a)) = a for every IPv6 address. */
  lemma Ipv6RoundTrip(gs: seq<nat>)
    requires |gs| == 8 && Words(gs)
    ensures ParseIpv6(PrintIpv6(gs)) == Some(gs)
  {
    hide PrintIpv6, ParseGroups, Join;
    var start, n := Canonical(gs);
    if n < 2 {
      JoinHead(gs);
      JoinReads(gs, Groups([], None));
      assert [] + gs == gs;
    } else {
      hide ParseIpv6, Expand;
      GapReads(gs, start, n);
      FillGap(gs, start, n);
    }
  }
}
