/** Which texts are IPv4 and IPv6 addresses, and what they mean: all of them, not only those that the writers print. */
module IpGrammar {
  import opened Bytes
  import opened Radix
  import opened Ip

  // --------------------------------------------------------------------------- numerals

  /** The figures, in either case; nothing else is one. */
  lemma FiguresAre(c: char)
    ensures forall d :: 0 <= d < 16 ==> Rank("0123456789abcdef"[d]) == Rank("0123456789ABCDEF"[d]) == d
    ensures Rank(c) < 16 ==> c == "0123456789abcdef"[Rank(c)] || c == "0123456789ABCDEF"[Rank(c)]
  {
  }

  /** One to four figures, the first the most significant */
  lemma GroupMeans(t: string)
    ensures HexGroup(t).Some? <==> 1 <= |t| <= 4 && forall i :: 0 <= i < |t| ==> Rank(t[i]) < 16
    ensures HexGroup(t).Some? ==>
      HexGroup(t).value ==
        if |t| == 1 then Rank(t[0])
        else if |t| == 2 then 16 * Rank(t[0]) + Rank(t[1])
        else if |t| == 3 then 256 * Rank(t[0]) + 16 * Rank(t[1]) + Rank(t[2])
        else 4096 * Rank(t[0]) + 256 * Rank(t[1]) + 16 * Rank(t[2]) + Rank(t[3])
  {
    if 1 <= |t| <= 4 { ValueOfFew(Ranks(t), 16); }
    hide Value;
  }

  lemma ValueOfFew(ds: seq<nat>, b: nat)
    requires 1 <= |ds| <= 4
    ensures |ds| == 1 ==> Value(ds, b) == ds[0]
    ensures |ds| == 2 ==> Value(ds, b) == b * ds[0] + ds[1]
    ensures |ds| == 3 ==> Value(ds, b) == b * (b * ds[0] + ds[1]) + ds[2]
    ensures |ds| == 4 ==> Value(ds, b) == b * (b * (b * ds[0] + ds[1]) + ds[2]) + ds[3]
  {
    var n := |ds|;
    ValueLast(ds, b);
    if n >= 2 { ValueLast(ds[..n - 1], b); }
    if n >= 3 { ValueLast(ds[..n - 1][..n - 2], b); }
    if n >= 4 { ValueLast(ds[..n - 1][..n - 2][..n - 3], b); }
  }

  lemma ValueLast(ds: seq<nat>, b: nat)
    requires ds != []
    ensures Value(ds, b) == b * Value(ds[..|ds| - 1], b) + ds[|ds| - 1] && Value([], b) == 0
  {
  }

  /** Reading figures from the left */
  function Horner(t: string, v: nat): nat {
    if t == [] then v
    else Horner(t[1..], 10 * v + (if '0' <= t[0] <= '9' then t[0] as int - '0' as int else 0))
  }

  lemma {:induction false} HornerIs(t: string, u: string)
    requires forall i :: 0 <= i < |t| ==> '0' <= t[i] <= '9'
    ensures Horner(t, Value(Ranks(u), 10)) == Value(Ranks(u + t), 10)
    decreases |t|
  {
    if t == [] {
      assert u + t == u;
    } else {
      var v := u + [t[0]];
      assert Ranks(v)[..|u|] == Ranks(u);
      ValueLast(Ranks(v), 10);
      HornerIs(t[1..], v);
      assert v + t[1..] == u + t;
    }
  }

  /** Any number of figures, leading zeros among them, as long as the value is not too large */
  lemma DecimalMeans(t: string, max: nat)
    ensures Decimal(t, max) ==
      if t != [] && (forall i :: 0 <= i < |t| ==> '0' <= t[i] <= '9') && Horner(t, 0) <= max
      then Some(Horner(t, 0)) else None
  {
    if forall i :: 0 <= i < |t| ==> '0' <= t[i] <= '9' {
      HornerIs(t, "");
      assert "" + t == t && Value(Ranks(""), 10) == 0;
      hide Value, Horner;
      forall i | 0 <= i < |t| ensures Rank(t[i]) < 10 { }
    } else {
      hide Value, Horner;
      var i :| 0 <= i < |t| && !('0' <= t[i] <= '9');
      assert Rank(t[i]) >= 10;
    }
  }

  // ------------------------------------------------------------------------------- IPv4

  /** The pieces with a dot between each two */
  function Dots(ds: seq<string>): string {
    if ds == [] then "" else if |ds| == 1 then ds[0] else ds[0] + ("." + Dots(ds[1..]))
  }

  predicate Decs(ds: seq<string>) {
    forall i :: 0 <= i < |ds| ==> Decimal(ds[i], 255).Some?
  }

  function Octets(ds: seq<string>): (x: seq<byte>)
    requires Decs(ds)
    ensures |x| == |ds| && forall i :: 0 <= i < |ds| ==> Decimal(ds[i], 255) == Some(x[i])
  {
    seq(|ds|, i requires 0 <= i < |ds| => Decimal(ds[i], 255).value)
  }

  lemma OctetsCons(d: string, ds: seq<string>)
    requires Decimal(d, 255).Some? && Decs(ds)
    ensures Decs([d] + ds) && Octets([d] + ds) == [Decimal(d, 255).value] + Octets(ds)
  {
    hide Decimal;
    var all := [d] + ds;
    forall i | 0 <= i < |all| ensures Decimal(all[i], 255).Some? { if i > 0 { assert all[i] == ds[i - 1]; } }
    assert Octets(all) == [Decimal(d, 255).value] + Octets(ds);
  }

  lemma DotsCons(d: string, ds: seq<string>)
    ensures Dots([d]) == d && (ds != [] ==> Dots([d] + ds) == d + ("." + Dots(ds)))
  {
    assert ([d] + ds)[1..] == ds;
  }

  lemma {:induction false} PartsComplete(ds: seq<string>)
    requires ds != [] && Decs(ds)
    ensures ParseParts(Dots(ds), |ds|) == Some(Octets(ds))
    decreases |ds|
  {
    hide Decimal, ParseParts, Dots, Octets;
    var d, rest := ds[0], ds[1..];
    assert ds == [d] + rest;
    DotsCons(d, rest);
    OctetsCons(d, rest);
    var v := Decimal(d, 255).value;
    if rest == [] {
      assert ds == [d] && Octets(rest) == [] && [v] + [] == [v];
      LastPart(d, v);
    } else {
      PartsComplete(rest);
      FirstPart(d, v, Dots(rest), |ds|, Octets(rest));
    }
  }

  lemma {:induction false} PartsSound(t: string, n: nat) returns (ds: seq<string>)
    requires n >= 1 && ParseParts(t, n).Some?
    ensures |ds| == n && Decs(ds) && t == Dots(ds) && ParseParts(t, n) == Some(Octets(ds))
    decreases n
  {
    hide Decimal, Dots, Until, Octets;
    var k := Until(t, false);
    var d := t[..k];
    if n == 1 {
      ds := [d];
      assert d == t;
      OctetsCons(d, []);
      DotsCons(d, []);
      assert ds == [d] + [] && Octets([]) == [];
      assert [Decimal(d, 255).value] + [] == [Decimal(d, 255).value];
    } else {
      var rest := PartsSound(t[k + 1..], n - 1);
      ds := [d] + rest;
      OctetsCons(d, rest);
      DotsCons(d, rest);
      UntilStops(t);
      assert t == d + ("." + t[k + 1..]);
    }
  }

  lemma {:induction false} UntilStops(t: string)
    ensures Until(t, false) < |t| ==> t[Until(t, false)] == '.'
    ensures Until(t, true) < |t| ==> t[Until(t, true)] == '.' || t[Until(t, true)] == ':'
    decreases |t|
  {
    if t != [] { UntilStops(t[1..]); }
  }

  /** The IPv4 addresses are the texts of four decimal numbers up to 255 with dots between them, in this order. */
  lemma Ipv4Exactly(t: string, x: seq<byte>)
    ensures ParseIpv4(t) == Some(x) <==> exists ds :: |ds| == 4 && Decs(ds) && t == Dots(ds) && x == Octets(ds)
  {
    hide ParseParts, Decs, Dots, Octets;
    if ParseIpv4(t) == Some(x) { var ds := PartsSound(t, 4); }
    if ds :| |ds| == 4 && Decs(ds) && t == Dots(ds) && x == Octets(ds) { PartsComplete(ds); }
  }

  // ------------------------------------------------------------------------------- IPv6

  /** Groups in front, perhaps "::" and groups behind it, and perhaps an IPv4 address at the end. */
  datatype Form = Form(front: seq<string>, gap: bool, back: seq<string>, tail: Option<seq<string>>)

  function Last(tail: Option<seq<string>>): seq<string> {
    if tail.Some? then [Dots(tail.value)] else []
  }

  function Spell(f: Form): string {
    if f.gap then Sep(f.front) + ("::" + Sep(f.back + Last(f.tail))) else Sep(f.front + Last(f.tail))
  }

  function Two(tail: Option<seq<string>>): nat { if tail.Some? then 2 else 0 }

  predicate TailOk(tail: Option<seq<string>>) {
    tail.Some? ==> |tail.value| == 4 && Decs(tail.value)
  }

  /** Eight groups in all, or fewer and a gap; the gap may stand for any number of groups, none included. */
  predicate Well(f: Form) {
    && Hexes(f.front) && Hexes(f.back) && TailOk(f.tail)
    && if f.gap then |f.front| + |f.back| + Two(f.tail) <= 8 else f.back == [] && |f.front| + Two(f.tail) == 8
  }

  /** The two big-endian words of the address at the end */
  function TailWords(tail: Option<seq<string>>): (ws: seq<nat>)
    requires TailOk(tail)
    ensures |ws| == Two(tail)
  {
    if tail.None? then []
    else
      var x := Octets(tail.value);
      [256 * (x[0] as int) + x[1] as int, 256 * (x[2] as int) + x[3] as int]
  }

  function Meaning(f: Form): (gs: seq<nat>)
    requires Well(f)
    ensures |gs| == 8
  {
    Vals(f.front) + ZeroGroups(8 - |f.front| - |f.back| - Two(f.tail)) + Vals(f.back) + TailWords(f.tail)
  }

  /** The address at the end is read where it stands. */
  lemma TailReads(ds: seq<string>, g: Groups)
    requires |ds| == 4 && Decs(ds) && |g.values| <= 6
    ensures Dots(ds) != [] && Dots(ds)[0] != ':'
    ensures ParseGroups(Dots(ds), g) == Some(g.(values := g.values + TailWords(Some(ds))))
  {
    hide Decimal, ParseParts, Until, Octets, Decs;
    PartsComplete(ds);
    var t := Dots(ds);
    DotAfter(ds);
    var x := Octets(ds);
    assert g.values + TailWords(Some(ds)) == g.values + [Word(x[0], x[1]), Word(x[2], x[3])];
  }

  lemma DotAfter(ds: seq<string>)
    requires |ds| >= 2 && Decs(ds)
    ensures
      var t := Dots(ds);
      t != [] && t[0] != ':' && Until(t, true) < |t| && t[Until(t, true)] == '.'
  {
    hide Decimal, Until;
    DecimalClear(ds[0], 255);
    var rest := "." + Dots(ds[1..]);
    UntilClear(ds[0], rest, true);
    assert Dots(ds) == ds[0] + rest;
  }

  /** Groups and what may stand at the end */
  lemma {:induction false} EndReads(ps: seq<string>, tail: Option<seq<string>>, g: Groups)
    requires Hexes(ps) && TailOk(tail) && |g.values| + |ps| + Two(tail) <= 8
    ensures ParseGroups(Sep(ps + Last(tail)), g) == Some(g.(values := g.values + Vals(ps) + TailWords(tail)))
    decreases |ps|
  {
    hide HexGroup, ParseGroups, Sep, Vals, Decs, Dots, Octets;
    if tail.None? {
      PiecesRead(ps, g);
      assert ps + [] == ps && g.values + Vals(ps) + [] == g.values + Vals(ps);
    } else if ps == [] {
      NothingLeft(g);
      TailReads(tail.value, g);
      SepCons(Dots(tail.value), []);
      assert [] + Last(tail) == [Dots(tail.value)] && g.values + [] == g.values;
    } else {
      var p, rest := ps[0], ps[1..];
      assert ps == [p] + rest;
      var v, more := HexGroup(p).value, rest + Last(tail);
      assert ps + Last(tail) == [p] + more;
      SepCons(p, more);
      ValsCons(p, rest);
      EndHead(rest, tail.value, g);
      SepHead(more);
      GroupThen(p, v, g, Sep(more));
      EndReads(rest, tail, g.(values := g.values + [v]));
      assert (g.values + [v]) + Vals(rest) == g.values + Vals(ps);
    }
  }

  lemma EndHead(ps: seq<string>, ds: seq<string>, g: Groups)
    requires Hexes(ps) && |ds| == 4 && Decs(ds)
    ensures
      var more := ps + [Dots(ds)];
      more[0] != [] && more[0][0] != ':'
  {
    hide HexGroup, Decs, Dots;
    if ps != [] { HexClear(ps[0]); } else { DotAfter(ds); }
  }

  /** Every well-formed text reads as what it means. */
  lemma FormReads(f: Form)
    requires Well(f)
    ensures ParseIpv6(Spell(f)) == Some(Meaning(f))
  {
    hide ParseGroups, Sep, Vals, TailWords, Hexes, TailOk, Last;
    var vs, ws, us := Vals(f.front), Vals(f.back), TailWords(f.tail);
    if !f.gap {
      StartsPlain(f);
      EndReads(f.front, f.tail, Groups([], None));
      assert [] + vs + us == vs + us;
      NoBack();
      assert vs + ZeroGroups(0) + [] + us == vs + us;
    } else {
      var rest := Sep(f.back + Last(f.tail));
      var g := Groups(vs, Some(|vs|));
      EndReads(f.back, f.tail, g);
      GapForm(f, rest);
      assert (vs + ws + us)[..|vs|] == vs && (vs + ws + us)[|vs|..] == ws + us;
      assert vs + ZeroGroups(8 - |vs + ws + us|) + (ws + us) == vs + ZeroGroups(8 - |vs + ws + us|) + ws + us;
    }
  }

  lemma NoBack()
    ensures Hexes([]) && Vals([]) == []
  {
  }

  /** A text without a gap begins with a figure. */
  lemma StartsPlain(f: Form)
    requires Well(f) && !f.gap
    ensures Spell(f) != [] && Spell(f)[0] != ':'
  {
    hide HexGroup, Sep, Decs, Dots;
    if f.tail.Some? {
      EndHead(f.front, f.tail.value, Groups([], None));
      SepHead(f.front + Last(f.tail));
    } else {
      assert f.front + [] == f.front;
      HexClear(f.front[0]);
      SepHead(f.front);
    }
  }

  /** The groups in front of the gap are read, then the gap. */
  lemma GapForm(f: Form, rest: string)
    requires Well(f) && f.gap
    ensures
      var r := ParseGroups(rest, Groups(Vals(f.front), Some(|f.front|)));
      ParseIpv6(Sep(f.front) + ("::" + rest)) == if r.Some? then Expand(r.value) else None
  {
    hide HexGroup, ParseGroups, Sep, Vals, Decs, Dots, Expand;
    var t := Sep(f.front) + ("::" + rest);
    if f.front == [] {
      NothingLeft(Groups([], None));
      assert t == "::" + rest && t[2..] == rest;
    } else {
      HexClear(f.front[0]);
      SepHead(f.front);
      PiecesThenGap(f.front, Groups([], None), rest);
      assert [] + Vals(f.front) == Vals(f.front);
    }
  }

  // -------------------------------------------------------------- and nothing else is read

  /** What is left of a text, as the loop takes it: groups, perhaps a gap and groups behind it, perhaps an address. */
  ghost predicate Splits(t: string, g: Groups, f: Form) {
    && Hexes(f.front) && Hexes(f.back) && TailOk(f.tail) && t == Spell(f)
    && (f.gap ==> g.gap.None? && f.front != []) && (!f.gap ==> f.back == [])
  }

  function Taken(g: Groups, f: Form): Groups
    requires Hexes(f.front) && Hexes(f.back) && TailOk(f.tail)
  {
    Groups(g.values + Vals(f.front) + Vals(f.back) + TailWords(f.tail),
           if f.gap then Some(|g.values| + |f.front|) else g.gap)
  }

  lemma {:induction false} GroupsSound(t: string, g: Groups) returns (f: Form)
    requires ParseGroups(t, g).Some?
    ensures Splits(t, g, f) && ParseGroups(t, g) == Some(Taken(g, f))
    decreases |t|
  {
    hide HexGroup, Until, Splits, Taken, Spell, ParseTail;
    if t == [] {
      f := Form([], false, [], None);
      NothingTaken(g);
    } else {
      var k := Until(t, true);
      UntilStops(t);
      if k < |t| && t[k] == '.' {
        f := TailSound(t, g);
      } else {
        var p := t[..k];
        var v := HexGroup(p).value;
        var h := g.(values := g.values + [v]);
        if k == |t| {
          f := Form([p], false, [], None);
          assert p == t;
          LastTaken(p, g);
        } else if k + 1 < |t| && t[k + 1] == ':' {
          var e := GroupsSound(t[k + 2..], h.(gap := Some(|h.values|)));
          f := Form([p], true, e.front, e.tail);
          assert t == p + ("::" + t[k + 2..]);
          BehindGap(t[k + 2..], h.(gap := Some(|h.values|)), e);
          GapTaken(p, g, e);
        } else {
          var e := GroupsSound(t[k + 1..], h);
          f := e.(front := [p] + e.front);
          assert t == p + (":" + t[k + 1..]);
          MoreTaken(t[k + 1..], p, g, e);
        }
      }
    }
  }

  lemma NothingTaken(g: Groups)
    ensures
      var f := Form([], false, [], None);
      Splits([], g, f) && Taken(g, f) == g
  {
    hide HexGroup;
    NothingLeft(g);
    assert [] + Last(None) == [];
    assert g.values + [] + [] + [] == g.values;
  }

  /** Behind a gap there is no other. */
  lemma BehindGap(t: string, g: Groups, e: Form)
    requires Splits(t, g, e) && g.gap.Some?
    ensures !e.gap && e.back == [] && Hexes(e.front) && Hexes(e.back) && TailOk(e.tail) && t == Spell(e)
  {
    hide Spell, HexGroup, Decs;
  }

  lemma TailSound(t: string, g: Groups) returns (f: Form)
    requires ParseTail(t, g).Some?
    ensures Splits(t, g, f) && ParseTail(t, g) == Some(Taken(g, f))
  {
    hide ParseParts, Dots, Decs, Octets;
    var ds := PartsSound(t, 4);
    f := Form([], false, [], Some(ds));
    NothingLeft(g);
    SepCons(Dots(ds), []);
    assert [] + Last(Some(ds)) == [Dots(ds)];
    assert g.values + [] + [] + TailWords(Some(ds)) == g.values + TailWords(Some(ds));
  }

  lemma LastTaken(p: string, g: Groups)
    requires HexGroup(p).Some?
    ensures
      var f := Form([p], false, [], None);
      Splits(p, g, f) && Taken(g, f) == g.(values := g.values + [HexGroup(p).value])
  {
    hide HexGroup;
    ValsCons(p, []);
    NothingLeft(g);
    SepCons(p, []);
    var v := HexGroup(p).value;
    assert [p] + [] == [p] && [v] + [] == [v];
    assert g.values + [v] + [] + [] == g.values + [v];
  }

  lemma GapTaken(p: string, g: Groups, e: Form)
    requires HexGroup(p).Some? && g.gap.None? && Hexes(e.front) && Hexes(e.back) && TailOk(e.tail)
    requires !e.gap && e.back == []
    ensures
      var v := HexGroup(p).value;
      var f := Form([p], true, e.front, e.tail);
      && Splits(p + ("::" + Spell(e)), g, f)
      && Taken(g, f) == Taken(Groups(g.values + [v], Some(|g.values| + 1)), e)
  {
    hide HexGroup, Decs, Dots, Sep;
    ValsCons(p, []);
    NothingLeft(g);
    SepCons(p, []);
    var v := HexGroup(p).value;
    assert [p] + [] == [p] && [v] + [] == [v];
    var us, ws := Vals(e.front), TailWords(e.tail);
    assert g.values + [v] + us + [] + ws == g.values + [v] + us + ws;
  }

  lemma MoreTaken(rest: string, p: string, g: Groups, e: Form)
    requires HexGroup(p).Some? && rest != []
    requires Splits(rest, g.(values := g.values + [HexGroup(p).value]), e)
    ensures
      var v := HexGroup(p).value;
      var f := e.(front := [p] + e.front);
      && Splits(p + (":" + rest), g, f) && Taken(g, f) == Taken(g.(values := g.values + [v]), e)
  {
    hide HexGroup, Decs, Dots, Sep, Vals;
    var v := HexGroup(p).value;
    ValsCons(p, e.front);
    var front := if e.gap then e.front else e.front + Last(e.tail);
    assert front != [] by { if front == [] { NothingLeft(g); } }
    SepCons(p, front);
    if e.gap {
      var more := "::" + Sep(e.back + Last(e.tail));
      assert (p + (":" + Sep(e.front))) + more == p + (":" + (Sep(e.front) + more));
    } else {
      assert [p] + e.front + Last(e.tail) == [p] + front;
    }
    assert g.values + ([v] + Vals(e.front)) == g.values + [v] + Vals(e.front);
  }

  /** The IPv6 addresses are exactly the well-formed texts, each with its meaning; every other text is refused. */
  lemma Ipv6Exactly(t: string, gs: seq<nat>)
    ensures ParseIpv6(t) == Some(gs) <==> exists f :: Well(f) && t == Spell(f) && gs == Meaning(f)
  {
    hide Spell, Meaning, ParseIpv6, Well;
    if ParseIpv6(t) == Some(gs) { var f := FormOf(t); }
    if f :| Well(f) && t == Spell(f) && gs == Meaning(f) { FormReads(f); }
  }

  lemma FormOf(t: string) returns (f: Form)
    requires ParseIpv6(t).Some?
    ensures Well(f) && t == Spell(f) && ParseIpv6(t) == Some(Meaning(f))
  {
    hide ParseGroups, Well, Meaning, Spell, Expand, Splits, Taken;
    if t[0] == ':' {
      var rest := t[2..];
      var e := GroupsSound(rest, Groups([], Some(0)));
      assert t == "::" + rest;
      f := LeadingForm(rest, e);
    } else {
      f := GroupsSound(t, Groups([], None));
      PlainForm(t, f);
    }
  }

  /** Behind a leading gap there is no other. */
  lemma LeadingForm(rest: string, e: Form) returns (f: Form)
    requires Splits(rest, Groups([], Some(0)), e) && Expand(Taken(Groups([], Some(0)), e)).Some?
    ensures Well(f) && "::" + rest == Spell(f) && Expand(Taken(Groups([], Some(0)), e)) == Some(Meaning(f))
  {
    hide Vals, TailWords, Hexes, TailOk, Last, Sep;
    f := Form([], true, e.front, e.tail);
    NothingLeft(Groups([], None));
    NoBack();
    assert "" + ("::" + rest) == "::" + rest;
    var us, ws := Vals(e.front), TailWords(e.tail);
    var all := [] + us + [] + ws;
    assert all == us + ws && all[..0] == [] && all[0..] == us + ws;
    assert [] + ZeroGroups(8 - |all|) + (us + ws) == [] + ZeroGroups(8 - |all|) + us + ws;
  }

  lemma PlainForm(t: string, f: Form)
    requires Splits(t, Groups([], None), f) && Expand(Taken(Groups([], None), f)).Some?
    ensures Well(f) && t == Spell(f) && Expand(Taken(Groups([], None), f)) == Some(Meaning(f))
  {
    hide Vals, TailWords, Hexes, TailOk, Spell;
    var vs, us, ws := Vals(f.front), Vals(f.back), TailWords(f.tail);
    var all := [] + vs + us + ws;
    if f.gap {
      assert all[..|vs|] == vs && all[|vs|..] == us + ws;
      assert vs + ZeroGroups(8 - |all|) + (us + ws) == vs + ZeroGroups(8 - |all|) + us + ws;
    } else {
      NoBack();
      assert vs + ZeroGroups(0) + us + ws == all;
    }
  }

  // ---------------------------------------------------------- an address inside an address

  lemma {:induction false} PrintIsDots(x: seq<byte>) returns (ds: seq<string>)
    requires x != []
    ensures Decs(ds) && Octets(ds) == x && PrintParts(x) == Dots(ds)
    decreases |x|
  {
    hide Decimal, Numeral, Octets, Dots;
    var d := Numeral(x[0], 10);
    OneByte(x[0]);
    PrintCons(x[0], x[1..]);
    assert x == [x[0]] + x[1..];
    if |x| == 1 {
      ds := [d];
      OctetsCons(d, []);
      DotsCons(d, []);
      assert x == [x[0]] && [d] + [] == [d] && Octets([]) == [];
      assert [x[0]] + [] == [x[0]];
    } else {
      var rest := PrintIsDots(x[1..]);
      ds := [d] + rest;
      OctetsCons(d, rest);
      DotsCons(d, rest);
    }
  }

  lemma MappedForm(ds: seq<string>)
    requires |ds| == 4 && Decs(ds)
    ensures
      var f := Form([], true, ["ffff"], Some(ds));
      Well(f) && Vals(f.front) == [] && Vals(f.back) == [0xFFFF] && Spell(f) == "::ffff:" + Dots(ds)
  {
    hide Decs, Dots;
    GroupMeans("ffff");
    assert Rank('f') == 15;
    assert HexGroup("ffff") == Some(0xFFFF);
    hide HexGroup;
    SepCons("ffff", [Dots(ds)]);
    SepCons(Dots(ds), []);
    NothingLeft(Groups([], None));
    assert ["ffff"] + Last(Some(ds)) == ["ffff"] + [Dots(ds)];
    assert "" + ("::" + ("ffff" + (":" + Dots(ds)))) == "::ffff:" + Dots(ds);
  }

  lemma Eight(a: nat, b: nat)
    ensures [] + ZeroGroups(5) + [0xFFFF] + [a, b] == [0, 0, 0, 0, 0, 0xFFFF, a, b]
  {
  }

  /** An IPv4-mapped address in the usual text: eighty zero bits, sixteen ones, and the four bytes in order */
  lemma MappedReads(x: seq<byte>)
    requires |x| == 4
    ensures ParseIpv6("::ffff:" + PrintParts(x)) ==
      Some([0, 0, 0, 0, 0, 0xFFFF, 256 * (x[0] as int) + x[1] as int, 256 * (x[2] as int) + x[3] as int])
  {
    hide ParseIpv6, Octets, Decs, Dots, Well, Spell, Vals, PrintParts;
    var ds := PrintIsDots(x);
    MappedForm(ds);
    var f := Form([], true, ["ffff"], Some(ds));
    FormReads(f);
    var a, b := 256 * (x[0] as int) + x[1] as int, 256 * (x[2] as int) + x[3] as int;
    assert TailWords(f.tail) == [a, b];
    hide TailWords, ZeroGroups;
    Eight(a, b);
  }
}
