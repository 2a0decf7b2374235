/** The protocol table of multiaddrs in literals: each component as text and as bytes, and which texts are read. */
module MultiaddrSchema {
  import opened Bytes
  import opened Multiaddr
  import opened MultiaddrText
  import Ip
  import IpGrammar
  import PeerText
  import Multihash
  import Varint

  // -------------------------------------------------------------------------- the table

  /** The names, their codes, and how long their values are */
  lemma Table()
    ensures CodeOf("ip4") == Some(0x04) && ClassOf(0x04) == Some(Fixed(4)) && NameOf(0x04) == "ip4"
    ensures CodeOf("ip6") == Some(0x29) && ClassOf(0x29) == Some(Fixed(16)) && NameOf(0x29) == "ip6"
    ensures CodeOf("udp") == Some(0x0111) && ClassOf(0x0111) == Some(Fixed(2)) && NameOf(0x0111) == "udp"
    ensures CodeOf("quic-v1") == Some(0x01CD) && ClassOf(0x01CD) == Some(NoValue) && NameOf(0x01CD) == "quic-v1"
    ensures CodeOf("p2p") == CodeOf("ipfs") == Some(0x01A5) && ClassOf(0x01A5) == Some(Variable)
    ensures NameOf(0x01A5) == "p2p"
    ensures forall code :: ClassOf(code).Some? ==> code in {0x04, 0x29, 0x0111, 0x01A5, 0x01CD}
    ensures forall name :: CodeOf(name).Some? ==> name in {"ip4", "ip6", "udp", "quic-v1", "p2p", "ipfs"}
  {
  }

  /** The bytes of every valid component */
  lemma OnWire(c: Component)
    requires Valid(c)
    ensures ToBytes(c) ==
      if c.code == 0x04 then [0x04] + c.value
      else if c.code == 0x29 then [0x29] + c.value
      else if c.code == 0x0111 then [0x91, 0x02] + c.value
      else if c.code == 0x01CD then [0xCD, 0x03]
      else [0xA5, 0x03] + Varint.Encode(|c.value|) + c.value
  {
    hide Multihash.Whole;
    assert Varint.Encode(2) == [2] && Varint.Encode(3) == [3];
    assert Varint.Encode(0x0111) == [0x91, 0x02];
    assert Varint.Encode(0x01CD) == [0xCD, 0x03] && Varint.Encode(0x01A5) == [0xA5, 0x03];
  }

  /** What the values mean: addresses in network byte order, a port as two bytes, the more significant first. */
  lemma Values(t: string, cid: string -> Option<seq<byte>>)
    ensures ParseValue(0x04, t, cid) == Ip.ParseIpv4(t)
    ensures ParseValue(0x29, t, cid).Some? <==> Ip.ParseIpv6(t).Some?
    ensures ParseValue(0x29, t, cid).Some? ==>
      var gs, x := Ip.ParseIpv6(t).value, ParseValue(0x29, t, cid).value;
      |gs| == 8 && |x| == 16 && forall i :: 0 <= i < 8 ==> x[2 * i] == gs[i] / 256 && x[2 * i + 1] == gs[i] % 256
    ensures ParseValue(0x0111, t, cid) ==
      match Ip.Decimal(t, 65535)
      case None => None
      case Some(port) => Some([port / 256, port % 256])
    ensures ParseValue(0x01A5, t, cid) == PeerText.Parse(t, cid)
  {
    hide Ip.ParseIpv4, Ip.Decimal, Ip.ParseIpv6, PeerText.Parse;
    DecimalBound(t, 65535);
    if Ip.ParseIpv6(t).Some? { GroupBytes(t); }
  }

  lemma DecimalBound(t: string, max: nat)
    ensures Ip.Decimal(t, max).Some? ==> Ip.Decimal(t, max).value <= max
  {
  }

  lemma GroupBytes(t: string)
    requires Ip.ParseIpv6(t).Some?
    ensures
      var gs := Ip.ParseIpv6(t).value;
      |gs| == 8 && forall i :: 0 <= i < 8 ==> BytesOf(gs)[2 * i] == gs[i] / 256 && BytesOf(gs)[2 * i + 1] == gs[i] % 256
  {
    hide Ip.ParseIpv6, IpGrammar.Spell, IpGrammar.Well, IpGrammar.Meaning;
    var f := IpGrammar.FormOf(t);
    var gs := IpGrammar.Meaning(f);
    SmallGroups(f);
    forall i | 0 <= i < 8 ensures BytesOf(gs)[2 * i] == gs[i] / 256 && BytesOf(gs)[2 * i + 1] == gs[i] % 256 {
      Halves(i);
      assert gs[i] < 0x10000;
    }
  }

  lemma SmallGroups(f: IpGrammar.Form)
    requires IpGrammar.Well(f)
    ensures Ip.Words(IpGrammar.Meaning(f))
  {
    hide Ip.HexGroup, IpGrammar.Decs, IpGrammar.Octets;
    SmallVals(f.front);
    SmallVals(f.back);
  }

  lemma SmallVals(ps: seq<string>)
    requires Ip.Hexes(ps)
    ensures Ip.Words(Ip.Vals(ps))
  {
    hide Ip.HexGroup;
    forall i | 0 <= i < |ps| ensures Ip.Vals(ps)[i] < 0x10000 { IpGrammar.GroupMeans(ps[i]); }
  }

  // ------------------------------------------------------------------- which texts are read

  /** "/name", or "/name/value" */
  datatype Piece = Piece(name: string, value: Option<string>)

  function SpellPiece(p: Piece): string {
    "/" + (p.name + (if p.value.Some? then "/" + p.value.value else ""))
  }

  function SpellAll(ps: seq<Piece>): string {
    if ps == [] then "" else SpellPiece(ps[0]) + SpellAll(ps[1..])
  }

  /** The piece stands for the component: a known name, and a value if and only if the protocol is not quic-v1. */
  predicate Stands(p: Piece, c: Component, cid: string -> Option<seq<byte>>) {
    && CodeOf(p.name) == Some(c.code)
    && (c.code == 0x01CD ==> p.value.None? && c.value == [])
    && (c.code != 0x01CD ==>
          && p.value.Some? && p.value.value != [] && Slashless(p.value.value)
          && ParseValue(c.code, p.value.value, cid) == Some(c.value))
  }

  ghost predicate AllStand(ps: seq<Piece>, cs: seq<Component>, cid: string -> Option<seq<byte>>) {
    |ps| == |cs| && forall i :: 0 <= i < |ps| ==> Stands(ps[i], cs[i], cid)
  }

  lemma KnownNames(name: string)
    requires CodeOf(name).Some?
    ensures name != [] && Slashless(name)
  {
  }

  lemma {:induction false} TextComplete(ps: seq<Piece>, cs: seq<Component>, cid: string -> Option<seq<byte>>)
    requires AllStand(ps, cs, cid)
    ensures ReadAll(SpellAll(ps), cid) == Components(cs)
    ensures ps != [] ==> SpellAll(ps) != [] && SpellAll(ps)[0] == '/'
    decreases |ps|
  {
    hide ReadAll, CodeOf, ParseValue, Slashless;
    if ps == [] {
      NothingReads(cid);
    } else {
      var p, c, rest := ps[0], cs[0], SpellAll(ps[1..]);
      assert Stands(p, c, cid);
      TextComplete(ps[1..], cs[1..], cid);
      KnownNames(p.name);
      assert cs == [c] + cs[1..];
      if c.code == 0x01CD {
        ReadNameOnly(p.name, rest, cid);
        assert SpellAll(ps) == "/" + (p.name + rest);
      } else {
        ReadNameValue(p.name, c.code, p.value.value, c.value, rest, cid);
        assert SpellAll(ps) == "/" + (p.name + ("/" + (p.value.value + rest)));
      }
    }
  }

  lemma {:induction false} SlashStops(t: string)
    ensures Slashless(t[..Slash(t)]) && (Slash(t) < |t| ==> t[Slash(t)] == '/')
    decreases |t|
  {
    if t != [] && t[0] != '/' {
      SlashStops(t[1..]);
      var n := Slash(t);
      assert t[..n] == [t[0]] + t[1..][..n - 1];
    }
  }

  /** One turn of the loop takes one piece. */
  lemma PieceOf(t: string, cid: string -> Option<seq<byte>>) returns (p: Piece)
    requires t != [] && NextText(t, cid).Go?
    ensures Stands(p, NextText(t, cid).component, cid) && t == SpellPiece(p) + t[NextText(t, cid).read..]
  {
    hide CodeOf, ParseValue, Slash, Slashless;
    var n := Slash(t[1..]);
    SlashStops(t[1..]);
    var name := t[1..1 + n];
    assert t[1..][..n] == name;
    if NextText(t, cid).component.code == QUIC_V1 {
      p := Piece(name, None);
      assert t == "/" + (name + "") + t[1 + n..];
    } else {
      var m := Slash(t[2 + n..]);
      SlashStops(t[2 + n..]);
      var v := t[2 + n..2 + n + m];
      assert t[2 + n..][..m] == v;
      p := Piece(name, Some(v));
      assert t[1..][n] == t[1 + n];
      assert t == "/" + (name + ("/" + v)) + t[2 + n + m..];
    }
  }

  lemma {:induction false} TextSound(t: string, cid: string -> Option<seq<byte>>) returns (ps: seq<Piece>)
    requires ReadAll(t, cid).Components?
    ensures AllStand(ps, ReadAll(t, cid).list, cid) && t == SpellAll(ps)
    decreases |t|
  {
    hide NextText, Stands, SpellPiece;
    if t == [] {
      ps := [];
    } else {
      var n := NextText(t, cid).read;
      var p := PieceOf(t, cid);
      var rest := TextSound(t[n..], cid);
      ps := [p] + rest;
      assert ps[1..] == rest;
      var cs := ReadAll(t[n..], cid).list;
      assert ReadAll(t, cid).list == [NextText(t, cid).component] + cs;
    }
  }

  /** from_string accepts exactly the sequences of known pieces, each with the component that it stands for. */
  lemma TextExactly(t: string, cs: seq<Component>, cid: string -> Option<seq<byte>>)
    ensures FromString(t, cid) == Components(cs) <==>
      exists ps :: ps != [] && AllStand(ps, cs, cid) && t == SpellAll(ps)
  {
    hide ReadAll, AllStand, SpellAll;
    if FromString(t, cid) == Components(cs) {
      var ps := TextSound(t, cid);
      assert ps != [] by { NoText(); }
    }
    if ps :| ps != [] && AllStand(ps, cs, cid) && t == SpellAll(ps) { TextComplete(ps, cs, cid); }
  }

  lemma NoText()
    ensures SpellAll([]) == ""
  {
  }

  // --------------------------------------------------------------------------- examples

  /** A QUIC address over IPv4, text and bytes */
  lemma QuicOverIpv4(x: seq<byte>, port: nat, cid: string -> Option<seq<byte>>)
    requires |x| == 4 && port < 65536
    ensures
      var t := "/ip4/" + Ip.PrintParts(x) + "/udp/" + Ip.Numeral(port, 10) + "/quic-v1";
      var r := FromString(t, cid);
      r.Components? && Flatten(r.list) == [0x04] + x + [0x91, 0x02, port / 256, port % 256, 0xCD, 0x03]
  {
    hide FromString, Ip.PrintParts, Ip.Numeral, Flatten, Stands;
    Ipv4Piece(x, cid);
    PortPiece(port, cid);
    QuicPiece(cid);
    ThreePieces(Ip.PrintParts(x), Ip.Numeral(port, 10), x, [port / 256, port % 256], cid);
    QuicBytes(x, [port / 256, port % 256]);
  }

  lemma ThreePieces(a: string, b: string, x: seq<byte>, y: seq<byte>, cid: string -> Option<seq<byte>>)
    requires Stands(Piece("ip4", Some(a)), Component(0x04, x), cid)
    requires Stands(Piece("udp", Some(b)), Component(0x0111, y), cid)
    requires Stands(Piece("quic-v1", None), Component(0x01CD, []), cid)
    ensures FromString("/ip4/" + a + "/udp/" + b + "/quic-v1", cid) ==
      Components([Component(0x04, x), Component(0x0111, y), Component(0x01CD, [])])
  {
    hide FromString, AllStand, SpellAll, Stands;
    var ps := [Piece("ip4", Some(a)), Piece("udp", Some(b)), Piece("quic-v1", None)];
    var cs := [Component(0x04, x), Component(0x0111, y), Component(0x01CD, [])];
    ThreeStand(ps, cs, cid);
    SpellThree(ps);
    ThreeTexts(a, b);
    TextExactly(SpellAll(ps), cs, cid);
  }

  lemma ThreeTexts(a: string, b: string)
    ensures SpellPiece(Piece("ip4", Some(a))) + (SpellPiece(Piece("udp", Some(b))) + SpellPiece(Piece("quic-v1", None)))
      == "/ip4/" + a + "/udp/" + b + "/quic-v1"
  {
  }

  lemma QuicBytes(x: seq<byte>, y: seq<byte>)
    requires |x| == 4 && |y| == 2
    ensures Flatten([Component(0x04, x), Component(0x0111, y), Component(0x01CD, [])]) ==
      [0x04] + x + [0x91, 0x02, y[0], y[1], 0xCD, 0x03]
  {
    hide Flatten, ToBytes;
    var cs := [Component(0x04, x), Component(0x0111, y), Component(0x01CD, [])];
    FlattenThree(cs);
    OnWire(cs[0]);
    OnWire(cs[1]);
    OnWire(cs[2]);
  }

  lemma Ipv4Piece(x: seq<byte>, cid: string -> Option<seq<byte>>)
    requires |x| == 4
    ensures Stands(Piece("ip4", Some(Ip.PrintParts(x))), Component(0x04, x), cid)
  {
    hide Ip.PrintParts, Ip.ParseIpv4;
    Ip.Ipv4RoundTrip(x);
    PartsSlashless(x);
  }

  lemma PortPiece(port: nat, cid: string -> Option<seq<byte>>)
    requires port < 65536
    ensures Stands(Piece("udp", Some(Ip.Numeral(port, 10))), Component(0x0111, [port / 256, port % 256]), cid)
  {
    hide Ip.Numeral, Ip.Decimal, ParseValue;
    UdpPrints(port);
    Values(Ip.Numeral(port, 10), cid);
  }

  lemma UdpPrints(port: nat)
    requires port < 65536
    ensures Ip.Decimal(Ip.Numeral(port, 10), 65535) == Some(port) && Slashless(Ip.Numeral(port, 10))
    ensures Ip.Numeral(port, 10) != []
  {
    hide Ip.Numeral;
    assert Pow(10, 5) == 100000;
    Ip.NumeralReads(port, 10, 5);
  }

  lemma QuicPiece(cid: string -> Option<seq<byte>>)
    ensures Stands(Piece("quic-v1", None), Component(0x01CD, []), cid)
  {
  }

  lemma ThreeStand(ps: seq<Piece>, cs: seq<Component>, cid: string -> Option<seq<byte>>)
    requires |ps| == |cs| == 3 && Stands(ps[0], cs[0], cid) && Stands(ps[1], cs[1], cid) && Stands(ps[2], cs[2], cid)
    ensures AllStand(ps, cs, cid)
  {
    hide Stands;
  }

  lemma SpellThree(ps: seq<Piece>)
    requires |ps| == 3
    ensures SpellAll(ps) == SpellPiece(ps[0]) + (SpellPiece(ps[1]) + SpellPiece(ps[2]))
  {
    hide SpellPiece;
    var a, b := ps[1..], ps[2..];
    assert a[1..] == b && b[1..] == [];
    assert SpellAll(b) == SpellPiece(ps[2]) + "";
    assert SpellAll(a) == SpellPiece(ps[1]) + SpellAll(b);
  }

  lemma FlattenThree(cs: seq<Component>)
    requires |cs| == 3
    ensures Flatten(cs) == ToBytes(cs[0]) + (ToBytes(cs[1]) + ToBytes(cs[2]))
  {
    hide ToBytes;
    var a, b := cs[1..], cs[2..];
    assert a[1..] == b && b[1..] == [];
    assert Flatten(b) == ToBytes(cs[2]) + [];
    assert Flatten(a) == ToBytes(cs[1]) + Flatten(b);
  }
}
