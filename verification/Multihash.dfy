/** Multihashes: a code, a digest length and the digest; identity and sha2-256 only. */
module Multihash {
  import opened Bytes
  import Varint

  const IDENTITY: nat := 0x00
  const SHA2_256: nat := 0x12
  const SHA2_256_BYTES: nat := 32

  datatype Result =
    | Ok(code: nat, digest: seq<byte>, read: nat)
    | Truncated | InvalidVarint | SizeMismatch | UnsupportedCode

  function VarintError(r: Varint.Result): (e: Result) {
    if r.Truncated? then Truncated else InvalidVarint
  }

  predicate Supported(code: nat, len: nat) {
    len < Varint.LIMIT && (code == IDENTITY || (code == SHA2_256 && len == SHA2_256_BYTES))
  }

  /** libp2p_multihash_decode */
  function Decode(s: seq<byte>): Result {
    var c := Varint.Decode(s);
    if !c.Ok? then VarintError(c)
    else if c.read > |s| then Truncated
    else
      var n := Varint.Decode(s[c.read..]);
      if !n.Ok? then VarintError(n)
      else if !Supported(c.value, n.value) then if c.value == SHA2_256 then SizeMismatch else UnsupportedCode
      else if c.read + n.read + n.value > |s| then Truncated
      else Ok(c.value, s[c.read + n.read..c.read + n.read + n.value], c.read + n.read + n.value)
  }

  /** libp2p_multihash_encode, for what libp2p_multihash_size accepts */
  function Encode(code: nat, digest: seq<byte>): seq<byte> {
    Varint.Encode(code) + Varint.Encode(|digest|) + digest
  }

  /** The whole input is one multihash. */
  predicate Whole(s: seq<byte>) {
    Decode(s).Ok? && Decode(s).read == |s|
  }

  lemma RoundTrip(code: nat, digest: seq<byte>, rest: seq<byte>)
    requires Supported(code, |digest|)
    ensures Decode(Encode(code, digest) + rest) == Ok(code, digest, |Encode(code, digest)|)
  {
    hide Varint.Encode, Varint.Decode;
    var a, b := Varint.Encode(code), Varint.Encode(|digest|);
    var s := Encode(code, digest) + rest;
    assert s == a + (b + (digest + rest));
    Varint.RoundTrip(code, b + (digest + rest));
    assert s[|a|..] == b + (digest + rest);
    Varint.RoundTrip(|digest|, digest + rest);
  }

  lemma Canonical(s: seq<byte>)
    requires Decode(s).Ok?
    ensures
      var r := Decode(s);
      Supported(r.code, |r.digest|) && r.read == |Encode(r.code, r.digest)| <= |s|
        && s[..r.read] == Encode(r.code, r.digest)
  {
    hide Varint.Encode, Varint.Decode;
    var c := Varint.Decode(s);
    Varint.Canonical(s);
    var t := s[c.read..];
    var n := Varint.Decode(t);
    Varint.Canonical(t);
    var r := Decode(s);
    assert s[..r.read] == s[..c.read] + t[..n.read] + r.digest;
  }

  /** A whole multihash starts with a zero byte or with 0x12 0x20 and 32 more bytes. */
  lemma Forms(s: seq<byte>)
    requires Whole(s)
    ensures (s != [] && s[0] == 0) || (|s| == 34 && s[0] == 0x12 && s[1] == 0x20)
  {
    Canonical(s);
    var r := Decode(s);
    assert s == s[..r.read] == Encode(r.code, r.digest);
    assert Varint.Encode(r.code) == [r.code];
    if r.code == SHA2_256 { assert Varint.Encode(32) == [32]; }
  }
}
