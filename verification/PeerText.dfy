/** Peer ids as text: base58btc without its multibase prefix, told from CIDs by how they begin. */
module PeerText {
  import opened Bytes
  import opened Radix
  import Base58
  import Multihash

  const MAX_PEER_BYTES: nat := 128
  const MAX_PEER_TEXT: nat := 192

  /** multiaddr_is_legacy_peer_id */
  predicate Legacy(t: string) {
    (|t| >= 1 && t[0] == '1') || (|t| >= 2 && t[0] == 'Q' && t[1] == 'm')
  }

  /** multiaddr_parse_legacy_peer_id */
  function ParseLegacy(t: string): Option<seq<byte>> {
    if |t| >= MAX_PEER_TEXT then None
    else
      match Base58.Decode("z" + t)
      case Bytes(x) => if |x| <= MAX_PEER_BYTES && Multihash.Whole(x) then Some(x) else None
      case _ => None
  }

  /** multiaddr_parse_peer_id; `cid` reads the texts that do not look like a legacy peer id. */
  function Parse(t: string, cid: string -> Option<seq<byte>>): Option<seq<byte>> {
    if Legacy(t) then ParseLegacy(t) else cid(t)
  }

  /** multiaddr_format_peer_id */
  function Format(x: seq<byte>): Option<string> {
    var t := Base58.Encode(x);
    if |x| > MAX_PEER_BYTES || |t| > MAX_PEER_TEXT || |t| == 0 then None else Some(t[1..])
  }

  // ------------------------------------------------------------------------------- "Qm"

  lemma Power58()
    ensures Pow(58, 44) == 24986644000165537792 * 24986644000165537792 * (24986644000165537792 * 24986644000165537792)
  {
    assert Pow(58, 11) == 24986644000165537792;
    hide Pow;
    PowAdd(58, 11, 11);
    PowAdd(58, 22, 22);
  }

  lemma Power256()
    ensures Pow(256, 32) ==
      0x1_0000_0000_0000_0000 * 0x1_0000_0000_0000_0000 * (0x1_0000_0000_0000_0000 * 0x1_0000_0000_0000_0000)
  {
    assert Pow(256, 8) == 0x1_0000_0000_0000_0000;
    hide Pow;
    PowAdd(256, 8, 8);
    PowAdd(256, 16, 16);
  }

  /** 58^44 and 256^32 compared in figures. */
  lemma BigPowers()
    ensures 1378 * Pow(58, 44) <= 0x1220 * Pow(256, 32)
    ensures 0x1221 * Pow(256, 32) <= 1379 * Pow(58, 44)
  {
    hide Pow;
    Power58();
    Power256();
  }

  /** Between 1378 and 1379 times 58^44 the two leading digits are 23 and 44. */
  lemma LeadingDigits(n: nat)
    requires 1378 * Pow(58, 44) <= n < 1379 * Pow(58, 44)
    ensures var ds := Digits(n, 58); Below(ds, 58) && |ds| == 46 && ds[0] == 23 && ds[1] == 44
  {
    var p := Pow(58, 44);
    var ds := Digits(n, 58);
    DigitsDenote(n, 58);
    PowPositive(58, 44);
    assert Pow(58, 45) == 58 * p && Pow(58, 46) == 58 * (58 * p);
    DigitsLength(n, 58, 46);
    DigitsLength(n, 58, 45);
    assert |ds| == 46;
    hide Digits, Pow;
    TopTwo(ds, 58, 44);
    var w := ds[0] * 58 + ds[1];
    StepApart(w, 1378, p);
    StepApart(1378, w, p);
    assert w == 1378;
  }

  /** A number is its two leading digits followed by the rest. */
  lemma TopTwo(ds: seq<nat>, b: nat, k: nat)
    requires |ds| == k + 2 && Below(ds, b)
    ensures (ds[0] * b + ds[1]) * Pow(b, k) <= Value(ds, b) < (ds[0] * b + ds[1]) * Pow(b, k) + Pow(b, k)
  {
    ValueFront(ds, b);
    ValueFront(ds[1..], b);
    assert ds[1..][1..] == ds[2..];
    ValueBelow(ds[2..], b);
    assert Pow(b, k + 1) == b * Pow(b, k);
    hide Pow, Value;
    Distribute(ds[0], ds[1], b, Pow(b, k));
  }

  lemma Distribute(c: nat, d: nat, b: nat, p: nat)
    ensures (c * b + d) * p == c * (b * p) + d * p
  {
    assert c * b * p == c * (b * p);
  }

  lemma Sha256Number(x: seq<byte>)
    requires |x| == 34 && x[0] == 0x12 && x[1] == 0x20
    ensures 0x1220 * Pow(256, 32) <= Value(x, 256) < 0x1221 * Pow(256, 32)
  {
    hide Pow, Value;
    TopTwo(x, 256, 32);
    assert 0x12 * 256 + 0x20 == 0x1220;
  }

  /** The text of every sha2-256 peer id starts with "Qm". */
  lemma StartsQm(x: seq<byte>)
    requires |x| == 34 && x[0] == 0x12 && x[1] == 0x20
    ensures Base58.Encode(x)[0] == 'z' && |Base58.Encode(x)| == 47
    ensures Base58.Encode(x)[1] == 'Q' && Base58.Encode(x)[2] == 'm'
  {
    hide Pow, Value, Digits;
    hide Base58.Encode, Base58.Letter;
    BigPowers();
    Sha256Number(x);
    var n := Value(x, 256);
    LeadingDigits(n);
    var ds := Digits(n, 58);
    assert Base58.ZerosIn(x) == 0;
    Base58.EncodeParts(x, 0, ds);
    Base58.AlphabetOrder(23);
    Base58.AlphabetOrder(44);
    var t := Base58.Letters(ds);
    assert t[0] == 'Q' && t[1] == 'm';
  }

  /** The text of every identity peer id starts with "1". */
  lemma StartsOne(x: seq<byte>)
    requires x != [] && x[0] == 0
    ensures |Base58.Encode(x)| >= 2 && Base58.Encode(x)[0] == 'z' && Base58.Encode(x)[1] == '1'
  {
    hide Value, Digits, Base58.Letter;
    hide Base58.Encode, Base58.Letters;
    Base58.EncodeParts(x, Base58.ZerosIn(x), Digits(Value(x, 256), 58));
  }

  lemma Prints(x: seq<byte>)
    requires |x| <= MAX_PEER_BYTES
    ensures 1 <= |Base58.Encode(x)| <= MAX_PEER_TEXT
  {
    hide Base58.Encode;
    Base58.SizeEnough(x);
    NoSlash(x);
  }

  lemma LooksLegacy(x: seq<byte>)
    requires Multihash.Whole(x)
    ensures
      var t := Base58.Encode(x);
      |t| >= 2 && t == "z" + t[1..] && Legacy(t[1..])
  {
    hide Base58.Encode, Multihash.Whole;
    Multihash.Forms(x);
    if x[0] == 0 { StartsOne(x); } else { StartsQm(x); }
    var t := Base58.Encode(x);
    assert t == "z" + t[1..];
  }

  /** Every peer id of at most 128 bytes prints, and what prints reads back. */
  lemma RoundTrip(x: seq<byte>, cid: string -> Option<seq<byte>>)
    requires Multihash.Whole(x) && |x| <= MAX_PEER_BYTES
    ensures Format(x).Some? && Parse(Format(x).value, cid) == Some(x) && Format(x).value != []
  {
    hide Base58.Encode, Base58.Decode, Multihash.Whole, Legacy;
    Prints(x);
    LooksLegacy(x);
    Base58.RoundTrip(x);
  }

  /** No letter is a slash. */
  lemma NoSlash(x: seq<byte>)
    ensures |Base58.Encode(x)| >= 1 && forall i :: 0 <= i < |Base58.Encode(x)| ==> Base58.Encode(x)[i] != '/'
  {
    hide Value, Digits, Base58.Encode, Base58.Letter;
    var z, ds := Base58.ZerosIn(x), Digits(Value(x, 256), 58);
    Base58.EncodeParts(x, z, ds);
    var t := Base58.Letters(ds);
    forall i | 0 <= i < |t| ensures t[i] != '/' { Base58.AlphabetOrder(ds[i]); }
  }
}
