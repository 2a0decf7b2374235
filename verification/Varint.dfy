/** Unsigned varints limited to 9 bytes / 63 bits: encoder, decoder and size. */
module Varint {
  import opened Bytes

  const MAX_BYTES: nat := 9
  const LIMIT: nat := 0x8000_0000_0000_0000
  const WORD: nat := 0x1_0000_0000_0000_0000

  datatype Result =
    | Ok(value: nat, read: nat)
    | Truncated
    | Overflow
    | NonMinimal

  /** The minimal little-endian base-128 form, continuation bit on every byte but the last. */
  function Encode(v: nat): (s: seq<byte>)
    ensures |s| >= 1
  {
    if v < 128 then [v] else [v % 128 + 128] + Encode(v / 128)
  }

  function Size(v: nat): nat {
    |Encode(v)|
  }

  /** What the decoder does at byte `index` of its input when `s` is what is left of it. */
  function DecodeFrom(s: seq<byte>, index: nat): (r: Result)
    decreases |s|
  {
    if s == [] then Truncated
    else if index >= MAX_BYTES || (index == MAX_BYTES - 1 && s[0] >= 128) then Overflow
    else if s[0] < 128 then
      if index > 0 && s[0] == 0 then NonMinimal else Ok(s[0], 1)
    else
      match DecodeFrom(s[1..], index + 1)
      case Ok(v, n) => Ok(s[0] % 128 + 128 * v, n + 1)
      case failure => failure
  }

  function Decode(s: seq<byte>): (r: Result) {
    DecodeFrom(s, 0)
  }

  lemma {:induction false} DecodeFromEncode(v: nat, index: nat, rest: seq<byte>)
    requires index < MAX_BYTES && v < Pow(128, MAX_BYTES - index)
    requires index > 0 ==> v > 0
    ensures DecodeFrom(Encode(v) + rest, index) == Ok(v, Size(v))
    decreases v
  {
    var s := Encode(v) + rest;
    if v >= 128 {
      assert s[1..] == Encode(v / 128) + rest;
      DecodeFromEncode(v / 128, index + 1, rest);
    }
  }

  lemma LimitIsNineGroups()
    ensures LIMIT == Pow(128, MAX_BYTES)
  {
    assert Pow(128, 3) == 0x20_0000;
    assert Pow(128, 6) == 128 * (128 * (128 * Pow(128, 3)));
    assert Pow(128, 9) == 128 * (128 * (128 * Pow(128, 6)));
  }

  lemma Divides(v: nat, p: nat)
    requires p >= 1
    ensures v / (128 * p) == v / 128 / p
  {
    var q, r := v / 128 / p, v / 128 % p;
    assert v == 128 * (p * q + r) + v % 128;
    assert v == (128 * p) * q + (128 * r + v % 128) by { Distribute(p, q, r); }
    assert 128 * r + v % 128 < 128 * p;
    Unique(v, 128 * p, q, 128 * r + v % 128);
  }

  lemma Distribute(p: nat, q: nat, r: nat)
    ensures 128 * (p * q + r) == (128 * p) * q + 128 * r
  {
  }

  lemma Unique(v: nat, d: nat, q: nat, r: nat)
    requires d >= 1 && v == d * q + r && r < d
    ensures v / d == q
  {
    var k := v / d;
    assert v == d * k + v % d;
    if k < q { Grows(d, k, q); } else if k > q { Grows(d, q, k); }
  }

  lemma {:induction false} Grows(d: nat, a: nat, b: nat)
    requires a < b
    ensures d * a + d <= d * b
  {
    assert d * b == d * (b - 1) + d;
    if a + 1 < b { Grows(d, a, b - 1); }
  }

  lemma {:induction false} PowPositive(e: nat)
    ensures Pow(128, e) >= 1
  {
    if e > 0 { PowPositive(e - 1); }
  }

  /** Seven bits a byte, the least significant first; the top bit says that more follows. */
  lemma {:induction false} LittleEndian(v: nat, i: nat)
    requires i < Size(v)
    ensures Pow(128, i) >= 1
    ensures Encode(v)[i] == v / Pow(128, i) % 128 + if i + 1 < Size(v) then 128 else 0
    ensures i + 1 == Size(v) && i > 0 ==> Encode(v)[i] > 0
    decreases i
  {
    if i > 0 {
      LittleEndian(v / 128, i - 1);
      PowPositive(i - 1);
      Divides(v, Pow(128, i - 1));
    }
  }

  /** Decoding is a left inverse of encoding, whatever follows the encoding. */
  lemma RoundTrip(v: nat, rest: seq<byte>)
    requires v < LIMIT
    ensures Decode(Encode(v) + rest) == Ok(v, Size(v))
  {
    LimitIsNineGroups();
    DecodeFromEncode(v, 0, rest);
  }

  lemma {:induction false} DecodeFromCanonical(s: seq<byte>, index: nat)
    requires index < MAX_BYTES && DecodeFrom(s, index).Ok?
    ensures
      var r := DecodeFrom(s, index);
      && r.read <= |s| && s[..r.read] == Encode(r.value) && r.value < Pow(128, MAX_BYTES - index)
      && (index > 0 ==> r.value > 0)
    decreases |s|
  {
    var r := DecodeFrom(s, index);
    if s[0] >= 128 {
      DecodeFromCanonical(s[1..], index + 1);
      var t := DecodeFrom(s[1..], index + 1);
      assert s[..r.read] == [s[0]] + s[1..][..t.read];
      assert r.value / 128 == t.value && r.value % 128 + 128 == s[0];
      assert Pow(128, MAX_BYTES - index) == 128 * Pow(128, MAX_BYTES - index - 1);
    } else {
      assert s[..1] == [s[0]];
      PowAtLeastBase(MAX_BYTES - index);
    }
  }

  lemma {:induction false} PowAtLeastBase(e: nat)
    requires e >= 1
    ensures Pow(128, e) >= 128
  {
    if e > 1 { PowAtLeastBase(e - 1); }
  }

  /** An accepted input starts with the one encoding of the value it decodes to. */
  lemma Canonical(s: seq<byte>)
    requires Decode(s).Ok?
    ensures
      var r := Decode(s);
      r.value < LIMIT && r.read == Size(r.value) <= |s| && s[..r.read] == Encode(r.value)
  {
    LimitIsNineGroups();
    DecodeFromCanonical(s, 0);
  }

  lemma {:induction false} DecodeFromPrefix(v: nat, index: nat, k: nat)
    requires index < MAX_BYTES && v < Pow(128, MAX_BYTES - index)
    requires k < Size(v)
    ensures DecodeFrom(Encode(v)[..k], index) == Truncated
    decreases v
  {
    if k > 0 {
      var s := Encode(v)[..k];
      assert s[1..] == Encode(v / 128)[..k - 1];
      DecodeFromPrefix(v / 128, index + 1, k - 1);
    }
  }

  /** Every proper prefix of an encoding asks for more input. */
  lemma ProperPrefixTruncated(v: nat, k: nat)
    requires v < LIMIT && k < Size(v)
    ensures Decode(Encode(v)[..k]) == Truncated
  {
    LimitIsNineGroups();
    DecodeFromPrefix(v, 0, k);
  }

  lemma {:induction false} DecodeFromStable(s: seq<byte>, t: seq<byte>, index: nat)
    requires DecodeFrom(s, index) != Truncated
    ensures DecodeFrom(s + t, index) == DecodeFrom(s, index)
    decreases |s|
  {
    assert (s + t)[1..] == s[1..] + t;
    if index < MAX_BYTES - 1 && s[0] >= 128 {
      DecodeFromStable(s[1..], t, index + 1);
    }
  }

  /** A verdict other than "truncated" is final: more input cannot change it. */
  lemma Stable(s: seq<byte>, t: seq<byte>)
    requires Decode(s) != Truncated
    ensures Decode(s + t) == Decode(s)
  {
    DecodeFromStable(s, t, 0);
  }

  lemma {:induction false} DecodeFromBounded(s: seq<byte>, index: nat)
    requires index < MAX_BYTES && |s| >= MAX_BYTES - index
    ensures DecodeFrom(s, index) != Truncated
    decreases |s|
  {
    if index < MAX_BYTES - 1 && s[0] >= 128 {
      DecodeFromBounded(s[1..], index + 1);
    }
  }

  /** Nine bytes always decide. */
  lemma NineBytesDecide(s: seq<byte>)
    requires |s| >= MAX_BYTES
    ensures Decode(s) != Truncated
  {
    DecodeFromBounded(s, 0);
  }

  lemma {:induction false} SizeBound(v: nat, n: nat)
    requires n >= 1 && v < Pow(128, n)
    ensures Size(v) <= n
  {
    if v >= 128 {
      assert Pow(128, n) == 128 * Pow(128, n - 1);
      SizeBound(v / 128, n - 1);
    }
  }

  lemma AtMostNine(v: nat)
    requires v < LIMIT
    ensures Size(v) <= MAX_BYTES
  {
    LimitIsNineGroups();
    SizeBound(v, MAX_BYTES);
  }

  // ---------------------------------------------------------------- the loops

  datatype EncodeStatus = EncodeOk | EncodeOverflow | EncodeBufTooSmall

  /** uvarint_measure_unchecked: counts 7-bit groups of a 64-bit word. */
  method Measure(value: nat) returns (size: nat)
    requires value < WORD
    ensures size == Size(value)
  {
    size := 1;
    var remaining := value;
    while remaining >= 128
      invariant size - 1 + Size(remaining) == Size(value)
    {
      remaining := remaining / 128;
      size := size + 1;
    }
  }

  /** The do-while that writes 7-bit groups at buf[at..]. */
  method WriteGroups(value: nat, buf: array<byte>, at: nat)
    requires value < LIMIT && at + Size(value) <= buf.Length
    modifies buf
    ensures forall k :: 0 <= k < buf.Length ==>
      buf[k] == if at <= k < at + Size(value) then Encode(value)[k - at] else old(buf[k])
  {
    ghost var code := Encode(value);
    var index, remaining := 0, value;
    while remaining >= 128
      invariant index < |code| && Encode(remaining) == code[index..]
      invariant forall k :: 0 <= k < buf.Length ==>
        buf[k] == if at <= k < at + index then code[k - at] else old(buf[k])
    {
      assert code[index..][1..] == code[index + 1..] && code[index] == code[index..][0];
      buf[at + index] := remaining % 128 + 128;
      remaining := remaining / 128;
      index := index + 1;
    }
    assert code[index] == code[index..][0];
    buf[at + index] := remaining;
  }

  /** Writes the encoding at buf[at..], touching nothing else; reports the size even when it fails. */
  method EncodeInto(value: nat, buf: array<byte>, at: nat) returns (status: EncodeStatus, written: nat)
    requires value < WORD && at <= buf.Length
    modifies buf
    ensures written == Size(value)
    ensures status == (if value >= LIMIT then EncodeOverflow
                       else if buf.Length - at < Size(value) then EncodeBufTooSmall
                       else EncodeOk)
    ensures status == EncodeOk ==> buf[..] == old(buf[..at]) + Encode(value) + old(buf[at + Size(value)..])
    ensures status != EncodeOk ==> buf[..] == old(buf[..])
  {
    written := Measure(value);
    if value >= LIMIT {
      status := EncodeOverflow;
    } else if buf.Length - at < written {
      status := EncodeBufTooSmall;
    } else {
      status := EncodeOk;
      WriteGroups(value, buf, at);
    }
  }

  /** The shift-and-accumulate decoder. */
  method DecodeLoop(s: seq<byte>) returns (r: Result)
    ensures r == Decode(s)
  {
    hide DecodeFrom, Rebase;
    r := Truncated;
    var value: nat, scale: nat, index: nat := 0, 1, 0;
    RebaseStart(s);
    while index < |s|
      invariant index <= |s| && r == Truncated
      invariant Decode(s) == Rebase(DecodeFrom(s[index..], index), value, scale, index)
    {
      var b: int := s[index];
      assert s[index..][0] == b;
      if index >= MAX_BYTES || (index == MAX_BYTES - 1 && b >= 128) {
        RebaseOverflow(s, index, value, scale);
        return Overflow;
      }
      if b < 128 {
        RebaseLast(s, index, value, scale);
        return if index > 0 && b == 0 then NonMinimal else Ok(value + b * scale, index + 1);
      }
      RebaseStep(s, index, value, scale);
      value, scale, index := value + b % 128 * scale, scale * 128, index + 1;
    }
    RebaseEnd(s, index, value, scale);
  }

  lemma RebaseStart(s: seq<byte>)
    ensures Rebase(DecodeFrom(s[0..], 0), 0, 1, 0) == Decode(s)
  {
    assert s[0..] == s;
  }

  lemma RebaseEnd(s: seq<byte>, index: nat, value: nat, scale: nat)
    requires index == |s|
    ensures Rebase(DecodeFrom(s[index..], index), value, scale, index) == Truncated
  {
  }

  /** A verdict about the tail, restated for the whole input whose first `index` bytes hold `value`. */
  ghost function Rebase(r: Result, value: nat, scale: nat, index: nat): Result {
    match r
    case Ok(v, n) => Ok(value + scale * v, index + n)
    case failure => failure
  }

  lemma RebaseOverflow(s: seq<byte>, index: nat, value: nat, scale: nat)
    requires index < |s| && (index >= MAX_BYTES || (index == MAX_BYTES - 1 && s[index] >= 128))
    ensures Rebase(DecodeFrom(s[index..], index), value, scale, index) == Overflow
  {
  }

  lemma RebaseLast(s: seq<byte>, index: nat, value: nat, scale: nat)
    requires index < |s| && index < MAX_BYTES && s[index] < 128
    ensures Rebase(DecodeFrom(s[index..], index), value, scale, index)
         == if index > 0 && s[index] == 0 then NonMinimal else Ok(value + s[index] as int * scale, index + 1)
  {
    assert s[index..][0] == s[index];
    assert scale * s[index] == s[index] as int * scale;
  }

  lemma RebaseStep(s: seq<byte>, index: nat, value: nat, scale: nat)
    requires index < |s| && index < MAX_BYTES - 1 && s[index] >= 128
    ensures Rebase(DecodeFrom(s[index..], index), value, scale, index)
         == Rebase(DecodeFrom(s[index + 1..], index + 1), value + s[index] as int % 128 * scale, scale * 128, index + 1)
  {
    assert s[index..][1..] == s[index + 1..];
    var t := DecodeFrom(s[index + 1..], index + 1);
    if t.Ok? {
      var b := s[index] as int % 128;
      assert scale * (b + 128 * t.value) == b * scale + scale * 128 * t.value;
    }
  }
}
