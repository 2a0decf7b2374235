/** Multiaddrs as text: "/name/value" for each component. */
module MultiaddrText {
  import opened Bytes
  import opened Multiaddr
  import opened Radix
  import Ip
  import PeerText
  import Multihash
  import Base58

  function NameOf(code: nat): string {
    if code == IP4 then "ip4"
    else if code == IP6 then "ip6"
    else if code == UDP then "udp"
    else if code == QUIC_V1 then "quic-v1"
    else if code == P2P then "p2p"
    else ""
  }

  /** multiaddr_find_protocol_by_name, with the alias "ipfs" for "p2p" */
  function CodeOf(name: string): Option<nat> {
    if name == "ip4" then Some(IP4)
    else if name == "ip6" then Some(IP6)
    else if name == "udp" then Some(UDP)
    else if name == "quic-v1" then Some(QUIC_V1)
    else if name == "p2p" || name == "ipfs" then Some(P2P)
    else None
  }

  // --------------------------------------------------------------------------- values

  function GroupsOf(x: seq<byte>): (gs: seq<nat>)
    requires |x| == 16
    ensures |gs| == 8 && Ip.Words(gs)
  {
    seq(8, i requires 0 <= i < 8 => Ip.Word(x[2 * i], x[2 * i + 1]))
  }

  function BytesOf(gs: seq<nat>): (x: seq<byte>)
    requires |gs| == 8
    ensures |x| == 16
  {
    seq(16, i requires 0 <= i < 16 => (if i % 2 == 0 then gs[i / 2] / 256 else gs[i / 2]) % 256)
  }

  lemma BytesOfGroups(x: seq<byte>)
    requires |x| == 16
    ensures BytesOf(GroupsOf(x)) == x
  {
    forall k | 0 <= k < 8
      ensures BytesOf(GroupsOf(x))[2 * k] == x[2 * k] && BytesOf(GroupsOf(x))[2 * k + 1] == x[2 * k + 1]
    {
      WordSplits(x[2 * k], x[2 * k + 1]);
      Halves(k);
    }
    forall i | 0 <= i < 16 ensures BytesOf(GroupsOf(x))[i] == x[i] {
      assert i == 2 * (i / 2) || i == 2 * (i / 2) + 1;
    }
  }

  lemma Halves(k: nat)
    ensures 2 * k / 2 == k && 2 * k % 2 == 0 && (2 * k + 1) / 2 == k && (2 * k + 1) % 2 == 1
  {
  }

  /** The value part of to_string; None when the value cannot be printed */
  function ValueText(c: Component): Option<string> {
    if c.code == IP4 && |c.value| == 4 then Some(Ip.PrintParts(c.value))
    else if c.code == IP6 && |c.value| == 16 then Some(Ip.PrintIpv6(GroupsOf(c.value)))
    else if c.code == UDP && |c.value| == 2 then Some(Ip.Numeral(Ip.Word(c.value[0], c.value[1]), 10))
    else if c.code == P2P then PeerText.Format(c.value)
    else None
  }

  /** multiaddr_parse_text_component */
  function ParseValue(code: nat, t: string, cid: string -> Option<seq<byte>>): Option<seq<byte>> {
    if code == IP4 then Ip.ParseIpv4(t)
    else if code == IP6 then
      match Ip.ParseIpv6(t)
      case Some(gs) => if |gs| == 8 then Some(BytesOf(gs)) else None
      case None => None
    else if code == UDP then
      match Ip.Decimal(t, 65535)
      case Some(v) => Some([v / 256 % 256, v % 256])
      case None => None
    else if code == P2P then PeerText.Parse(t, cid)
    else None
  }

  // --------------------------------------------------------------------- whole addresses

  datatype Text = Text(text: string) | Unprintable

  /** "/name" or "/name/value" */
  function ComponentText(c: Component): Option<string> {
    if c.code == QUIC_V1 then Some("/" + NameOf(c.code))
    else
      match ValueText(c)
      case None => None
      case Some(v) => Some("/" + NameOf(c.code) + "/" + v)
  }

  /** libp2p_multiaddr_to_string, on the components of a valid multiaddr */
  function Print(cs: seq<Component>): Text {
    if cs == [] then Text("")
    else if ComponentText(cs[0]).None? || Print(cs[1..]).Unprintable? then Unprintable
    else Text(ComponentText(cs[0]).value + Print(cs[1..]).text)
  }

  /** Where the next '/' stands, or the length. */
  function Slash(t: string): (k: nat)
    ensures k <= |t|
  {
    if t == [] || t[0] == '/' then 0 else 1 + Slash(t[1..])
  }

  datatype Read = Components(list: seq<Component>) | Fault(error: Error)

  datatype Step = Stop(error: Error) | Go(component: Component, read: nat)

  /** One turn of the loop of libp2p_multiaddr_from_string: a name and, for most protocols, a value */
  function NextText(t: string, cid: string -> Option<seq<byte>>): (r: Step)
    requires t != []
    ensures r.Go? ==> 1 <= r.read <= |t|
  {
    if t[0] != '/' then Stop(Malformed)
    else
      var n := Slash(t[1..]);
      if n == 0 then Stop(Malformed)
      else
        match CodeOf(t[1..1 + n])
        case None => Stop(UnsupportedProtocol)
        case Some(code) =>
          if code == QUIC_V1 then Go(Component(code, []), 1 + n)
          else if 1 + n == |t| then Stop(Malformed)
          else
            var m := Slash(t[2 + n..]);
            if m == 0 then Stop(InvalidValue)
            else
              match ParseValue(code, t[2 + n..2 + n + m], cid)
              case None => Stop(InvalidValue)
              case Some(x) => Go(Component(code, x), 2 + n + m)
  }

  function ReadAll(t: string, cid: string -> Option<seq<byte>>): Read
    decreases |t|
  {
    if t == [] then Components([])
    else
      match NextText(t, cid)
      case Stop(e) => Fault(e)
      case Go(c, n) => Prepend(c, ReadAll(t[n..], cid))
  }

  function Prepend(c: Component, r: Read): Read {
    match r
    case Components(cs) => Components([c] + cs)
    case fault => fault
  }

  /** libp2p_multiaddr_from_string, before the output buffer */
  function FromString(t: string, cid: string -> Option<seq<byte>>): Read {
    if t == [] || t[0] != '/' then Fault(Malformed) else ReadAll(t, cid)
  }

  // ------------------------------------------------------------------------- round trip

  predicate Slashless(t: string) {
    forall i :: 0 <= i < |t| ==> t[i] != '/'
  }

  lemma {:induction false} SlashAfter(p: string, rest: string)
    requires Slashless(p) && (rest != [] ==> rest[0] == '/')
    ensures Slash(p + rest) == |p|
  {
    if p == [] {
      assert p + rest == rest;
    } else {
      SlashAfter(p[1..], rest);
      assert (p + rest)[1..] == p[1..] + rest;
    }
  }

  lemma {:induction false} PartsSlashless(x: seq<byte>)
    requires x != []
    ensures Slashless(Ip.PrintParts(x)) && Ip.PrintParts(x) != []
  {
    hide Ip.Numeral;
    Ip.OneByte(x[0]);
    assert Pow(10, 3) == 1000;
    Ip.NumeralReads(x[0], 10, 3);
    if |x| > 1 { PartsSlashless(x[1..]); }
  }

  lemma {:induction false} JoinSlashless(gs: seq<nat>)
    requires Ip.Words(gs)
    ensures Slashless(Ip.Join(gs)) && (gs != [] ==> Ip.Join(gs) != [])
  {
    if gs != [] {
      Ip.OneGroup(gs[0]);
      JoinSlashless(gs[1..]);
      hide Ip.Numeral;
    }
  }

  lemma Ipv6Slashless(gs: seq<nat>)
    requires |gs| == 8 && Ip.Words(gs)
    ensures Slashless(Ip.PrintIpv6(gs)) && Ip.PrintIpv6(gs) != []
  {
    hide Ip.PrintIpv6, Ip.Join;
    var start, n := Ip.Canonical(gs);
    JoinSlashless(gs);
    JoinSlashless(gs[..start]);
    JoinSlashless(gs[start + n..]);
  }

  /** /p2p values short enough to print */
  predicate Printable(c: Component) {
    Valid(c) && (c.code == P2P ==> |c.value| <= PeerText.MAX_PEER_BYTES)
  }

  lemma WordSplits(high: byte, low: byte)
    ensures Ip.Word(high, low) / 256 % 256 == high && Ip.Word(high, low) % 256 == low && Ip.Word(high, low) < 65536
  {
  }

  lemma UdpReads(x: seq<byte>)
    requires |x| == 2
    ensures
      var v := Ip.Word(x[0], x[1]);
      && Ip.Decimal(Ip.Numeral(v, 10), 65535) == Some(v) && [v / 256 % 256, v % 256] == x
      && Slashless(Ip.Numeral(v, 10)) && Ip.Numeral(v, 10) != []
  {
    hide Ip.Word;
    hide Ip.Numeral;
    WordSplits(x[0], x[1]);
    var v := Ip.Word(x[0], x[1]);
    assert Pow(10, 5) == 100000;
    Ip.NumeralReads(v, 10, 5);
  }

  lemma PeerReads(x: seq<byte>, cid: string -> Option<seq<byte>>)
    requires Multihash.Whole(x) && |x| <= PeerText.MAX_PEER_BYTES
    ensures PeerText.Format(x).Some?
    ensures
      var t := PeerText.Format(x).value;
      PeerText.Parse(t, cid) == Some(x) && Slashless(t) && t != []
  {
    hide Base58.Encode, PeerText.Parse, Multihash.Whole;
    PeerText.RoundTrip(x, cid);
    PeerText.NoSlash(x);
  }

  /** The text of a value reads back as the value, and holds no separator. */
  lemma ValueReads(c: Component, cid: string -> Option<seq<byte>>)
    requires Printable(c) && c.code != QUIC_V1
    ensures ValueText(c).Some?
    ensures
      var v := ValueText(c).value;
      ParseValue(c.code, v, cid) == Some(c.value) && Slashless(v) && v != []
  {
    hide Ip.PrintParts, Ip.PrintIpv6, Ip.ParseIpv4, Ip.ParseIpv6, Ip.Decimal, Ip.Numeral, PeerText.Format;
    hide PeerText.Parse, GroupsOf, BytesOf, Multihash.Whole;
    if c.code == IP4 {
      Ip.Ipv4RoundTrip(c.value);
      PartsSlashless(c.value);
    } else if c.code == IP6 {
      var gs := GroupsOf(c.value);
      Ip.Ipv6RoundTrip(gs);
      Ipv6Slashless(gs);
      BytesOfGroups(c.value);
    } else if c.code == UDP {
      UdpReads(c.value);
    } else {
      PeerReads(c.value, cid);
    }
  }

  lemma NameReads(code: nat)
    requires ClassOf(code).Some?
    ensures CodeOf(NameOf(code)) == Some(code) && NameOf(code) != [] && Slashless(NameOf(code))
  {
  }

  lemma ReadNameOnly(name: string, rest: string, cid: string -> Option<seq<byte>>)
    requires CodeOf(name) == Some(QUIC_V1) && name != [] && Slashless(name) && (rest != [] ==> rest[0] == '/')
    ensures ReadAll("/" + (name + rest), cid) == Prepend(Component(QUIC_V1, []), ReadAll(rest, cid))
  {
    var t := "/" + (name + rest);
    assert t[1..] == name + rest;
    SlashAfter(name, rest);
    assert t[1..1 + |name|] == name && t[1 + |name|..] == rest;
    hide CodeOf, Slash, ParseValue;
    assert NextText(t, cid) == Go(Component(QUIC_V1, []), 1 + |name|);
    hide NextText;
  }

  lemma NextNameValue(name: string, code: nat, v: string, x: seq<byte>, rest: string, cid: string -> Option<seq<byte>>)
    requires CodeOf(name) == Some(code) && code != QUIC_V1 && name != [] && Slashless(name)
    requires ParseValue(code, v, cid) == Some(x) && v != [] && Slashless(v) && (rest != [] ==> rest[0] == '/')
    ensures NextText("/" + (name + ("/" + (v + rest))), cid) == Go(Component(code, x), 2 + |name| + |v|)
  {
    hide CodeOf, Slash, ParseValue, Slashless;
    Layout(name, v, rest);
    SlashAfter(name, "/" + (v + rest));
    SlashAfter(v, rest);
  }

  lemma ReadNameValue(name: string, code: nat, v: string, x: seq<byte>, rest: string, cid: string -> Option<seq<byte>>)
    requires CodeOf(name) == Some(code) && code != QUIC_V1 && name != [] && Slashless(name)
    requires ParseValue(code, v, cid) == Some(x) && v != [] && Slashless(v) && (rest != [] ==> rest[0] == '/')
    ensures ReadAll("/" + (name + ("/" + (v + rest))), cid) == Prepend(Component(code, x), ReadAll(rest, cid))
  {
    hide CodeOf, ParseValue, Slashless, NextText, Prepend;
    NextNameValue(name, code, v, x, rest, cid);
    Layout(name, v, rest);
  }

  lemma Layout(name: string, v: string, rest: string)
    ensures
      var t := "/" + (name + ("/" + (v + rest)));
      var n, m := |name|, |v|;
      && t[1..] == name + ("/" + (v + rest)) && t[2 + n..] == v + rest
      && t[1..1 + n] == name && t[2 + n..2 + n + m] == v && t[2 + n + m..] == rest
  {
  }

  lemma {:induction false} PrintReads(cs: seq<Component>, cid: string -> Option<seq<byte>>)
    requires forall i :: 0 <= i < |cs| ==> Printable(cs[i])
    ensures Print(cs).Text? && ReadAll(Print(cs).text, cid) == Components(cs)
    ensures cs != [] ==> Print(cs).text != [] && Print(cs).text[0] == '/'
    ensures cs == [] ==> Print(cs).text == []
  {
    hide ReadAll, ComponentText, Printable;
    if cs == [] {
      NothingReads(cid);
    } else {
      var c := cs[0];
      PrintReads(cs[1..], cid);
      assert cs == [c] + cs[1..];
      ComponentReads(c, Print(cs[1..]).text, cid);
    }
  }

  lemma NothingReads(cid: string -> Option<seq<byte>>)
    ensures ReadAll("", cid) == Components([])
  {
  }

  /** One printed component in front of more text. */
  lemma ComponentReads(c: Component, rest: string, cid: string -> Option<seq<byte>>)
    requires Printable(c) && (rest != [] ==> rest[0] == '/')
    ensures ComponentText(c).Some?
    ensures
      var t := ComponentText(c).value;
      t != [] && t[0] == '/' && ReadAll(t + rest, cid) == Prepend(c, ReadAll(rest, cid))
  {
    hide ReadAll, ParseValue, CodeOf, Slashless, Multihash.Whole;
    NameReads(c.code);
    var name := NameOf(c.code);
    if c.code == QUIC_V1 {
      ReadNameOnly(name, rest, cid);
      Glue(name, "", rest);
    } else {
      ValueReads(c, cid);
      hide ValueText, NameOf;
      ReadNameValue(name, c.code, ValueText(c).value, c.value, rest, cid);
      Glue(name, ValueText(c).value, rest);
    }
  }

  lemma Glue(name: string, v: string, rest: string)
    ensures ("/" + name) + rest == "/" + (name + rest)
    ensures ("/" + name + "/" + v) + rest == "/" + (name + ("/" + (v + rest)))
  {
  }

  /** A valid multiaddr prints exactly when its /p2p values are at most 128 bytes long. */
  lemma {:induction false} PrintsExactly(cs: seq<Component>)
    requires AllValid(cs)
    ensures Print(cs).Text? <==> forall i :: 0 <= i < |cs| ==> Printable(cs[i])
  {
    if cs != [] {
      PrintsExactly(cs[1..]);
      assert Valid(cs[0]);
      if Printable(cs[0]) && cs[0].code != QUIC_V1 { ValueReads(cs[0], _ => None); }
      assert forall i :: 0 <= i < |cs[1..]| ==> cs[1..][i] == cs[i + 1];
      assert (forall i :: 0 <= i < |cs| ==> Printable(cs[i])) <==>
        Printable(cs[0]) && (forall i :: 0 <= i < |cs[1..]| ==> Printable(cs[1..][i])) by { hide Printable; }
    }
  }

  /** from_string(to_string(b)) = b for every non-empty valid multiaddr whose /p2p values are at most 128 bytes long. */
  lemma TextRoundTrip(b: seq<byte>, cid: string -> Option<seq<byte>>)
    requires Validate(b).Ok? && b != []
    requires forall i :: 0 <= i < |Validate(b).components| && Validate(b).components[i].code == P2P ==>
      |Validate(b).components[i].value| <= PeerText.MAX_PEER_BYTES
    ensures
      var cs := Validate(b).components;
      Print(cs).Text? && FromString(Print(cs).text, cid) == Components(cs) && Flatten(cs) == b
  {
    hide Validate, ReadAll;
    ValidateSound(b);
    var cs := Validate(b).components;
    EmptyFlatten(cs);
    PrintReads(cs, cid);
  }
}
