/** The in-place base conversions: digits grow from the far end of the output buffer and are compacted forward. */
module Base58Impl {
  import opened Bytes
  import opened Radix
  import opened Base58

  // ------------------------------------------------------------ one multiply-and-add pass

  /** One digit of the pass: what is left to multiply, the carry, and the digits already done. */
  lemma PassStep(front: seq<nat>, d: nat, tail: seq<nat>, base: nat, mult: nat, carry: nat, q: nat, r: nat)
    requires carry + d * mult == q * base + r
    ensures (Value(front + [d], base) * mult + carry) * Pow(base, |tail|) + Value(tail, base)
         == (Value(front, base) * mult + q) * Pow(base, |tail| + 1) + Value([r] + tail, base)
  {
    hide Value, Pow;
    ValueSnoc(front, d, base);
    ValueFront([r] + tail, base);
    assert ([r] + tail)[1..] == tail;
    PowStep(base, |tail|);
    var v, p := Value(front, base), Pow(base, |tail|);
    Regroup(v, d, base, mult, carry, q, r, p);
    Append3((v * base + d) * mult + carry, v * mult + q, p, base * p, r * p, Value(tail, base));
  }

  lemma PowStep(b: nat, e: nat)
    ensures Pow(b, e + 1) == b * Pow(b, e)
  {
  }

  lemma Append3(a: nat, b: nat, p: nat, q: nat, x: nat, y: nat)
    requires a * p == b * q + x
    ensures a * p + y == b * q + (x + y)
  {
  }

  lemma Regroup(v: nat, d: nat, base: nat, mult: nat, carry: nat, q: nat, r: nat, p: nat)
    requires carry + d * mult == q * base + r
    ensures ((v * base + d) * mult + carry) * p == (v * mult + q) * (base * p) + r * p
  {
    assert (v * base + d) * mult + carry == (v * mult) * base + (d * mult + carry);
    assert (v * mult) * base + (q * base + r) == (v * mult + q) * base + r;
    assert ((v * mult + q) * base + r) * p == (v * mult + q) * base * p + r * p;
    assert (v * mult + q) * base * p == (v * mult + q) * (base * p);
  }

  /** The 32-bit accumulator never wraps. */
  lemma NoWrap(carry: nat, d: nat, mult: nat)
    requires carry < mult <= 256 && d < 256
    ensures carry + d * mult < 0x1_0000_0000
  {
    TimesMonotone(d, 255, mult, 256);
  }

  lemma DivMod(c: nat, b: nat)
    requires b >= 1
    ensures c / b >= 0 && 0 <= c % b < b && c == (c / b) * b + c % b
  {
  }

  lemma CarryBelow(d: nat, base: nat, mult: nat, carry: nat, q: nat, r: nat)
    requires d < base && carry < mult && carry + d * mult == q * base + r
    ensures q < mult
  {
    StepApart(d, base, mult);
    if q >= mult { TimesMonotone(mult, q, base, base); }
  }

  /** A number held right-aligned in a window of digits. */
  ghost predicate Holds(w: seq<nat>, base: nat, used: nat, n: nat)
    requires base >= 2
  {
    && used == |Digits(n, base)| <= |w| && Below(w, base) && Value(w, base) == n
    && (forall i :: 0 <= i < |w| - used ==> w[i] == 0)
  }

  lemma HoldsDigits(w: seq<nat>, base: nat, used: nat, n: nat)
    requires base >= 2 && Holds(w, base, used, n)
    ensures w[|w| - used..] == Digits(n, base)
  {
    ValueSkip(w, base, |w| - used);
    DigitsAre(w[|w| - used..], base, n);
  }

  lemma HoldsZero(w: seq<nat>, base: nat)
    requires base >= 2 && forall i :: 0 <= i < |w| ==> w[i] == 0
    ensures Holds(w, base, 0, 0)
  {
    NoDigits(base);
    ValueZeros(w, base);
  }

  /** What the window stands for when its last j digits are done and carry is pending. */
  ghost function Total(w: seq<nat>, base: nat, mult: nat, carry: nat, j: nat): nat
    requires j <= |w|
  {
    (Value(w[..|w| - j], base) * mult + carry) * Pow(base, j) + Value(w[|w| - j..], base)
  }

  /** j digits of the window w are done, carry is pending, and t is what w stands for in the end. */
  ghost predicate Pass(w: seq<nat>, base: nat, mult: nat, carry: nat, j: nat, used: nat, t: nat) {
    && j <= |w| && used <= |w| && carry < mult && Below(w, base)
    && (forall i :: 0 <= i < |w| - j && i < |w| - used ==> w[i] == 0)
    && Total(w, base, mult, carry, j) == t
    && (used > 0 ==> Pow(base, used - 1) <= t) && (j > used ==> Pow(base, j - 1) <= t)
  }

  lemma PassStarts(w: seq<nat>, base: nat, mult: nat, add: nat, used: nat, n: nat)
    requires base >= 2 && add < mult && Holds(w, base, used, n)
    ensures Pass(w, base, mult, add, 0, used, n * mult + add)
  {
    Times(mult, n);
    assert w[..|w| - 0] == w;
    if used > 0 { DigitsLength(n, base, used - 1); }
  }

  lemma TotalOn(w: seq<nat>, base: nat, mult: nat, carry: nat, j: nat, q: nat, r: nat)
    requires j < |w| && carry + w[|w| - 1 - j] * mult == q * base + r
    ensures Total(w[|w| - 1 - j := r], base, mult, q, j + 1) == Total(w, base, mult, carry, j)
  {
    hide Value, Pow;
    var k := |w| - 1 - j;
    var u := w[k := r];
    assert w[..k + 1] == w[..k] + [w[k]];
    assert u[..k] == w[..k] && u[k..] == [r] + w[k + 1..];
    PassStep(w[..k], w[k], w[k + 1..], base, mult, carry, q, r);
  }

  lemma TotalLow(w: seq<nat>, base: nat, mult: nat, carry: nat, j: nat)
    requires j <= |w| && carry != 0
    ensures Total(w, base, mult, carry, j) >= Pow(base, j)
  {
    Times(Value(w[..|w| - j], base) * mult + carry, Pow(base, j));
  }

  lemma PassOn(w: seq<nat>, base: nat, mult: nat, carry: nat, j: nat, used: nat, t: nat, q: nat, r: nat)
    requires Pass(w, base, mult, carry, j, used, t) && j < |w| && (carry != 0 || j < used)
    requires carry + w[|w| - 1 - j] * mult == q * base + r && r < base
    ensures Pass(w[|w| - 1 - j := r], base, mult, q, j + 1, used, t)
  {
    hide Total, Pow;
    TotalOn(w, base, mult, carry, j, q, r);
    CarryBelow(w[|w| - 1 - j], base, mult, carry, q, r);
    if j >= used { TotalLow(w, base, mult, carry, j); }
  }

  /** When the pass ends: no carry, and everything in front is zero. */
  lemma PassEnds(w: seq<nat>, base: nat, mult: nat, j: nat, used: nat, t: nat)
    requires base >= 2 && Pass(w, base, mult, 0, j, used, t) && j >= used
    ensures Holds(w, base, j, t)
  {
    var k := |w| - j;
    ValueZeros(w[..k], base);
    assert (0 * mult + 0) * Pow(base, j) == 0;
    ValueSkip(w, base, k);
    ValueBelow(w[k..], base);
    DigitsLength(t, base, j);
    if j > 0 { DigitsLength(t, base, j - 1); }
  }

  lemma PassBounds(w: seq<nat>, base: nat, mult: nat, carry: nat, j: nat, used: nat, t: nat)
    requires Pass(w, base, mult, carry, j, used, t)
    ensures carry < mult && j <= |w| && used <= |w|
  {
  }

  lemma PassOverflows(w: seq<nat>, base: nat, mult: nat, carry: nat, used: nat, t: nat)
    requires base >= 2 && Pass(w, base, mult, carry, |w|, used, t) && carry != 0
    ensures |Digits(t, base)| > |w|
  {
    TotalLow(w, base, mult, carry, |w|);
    DigitsLength(t, base, |w|);
  }

  /**
    The window a[lo..hi] holds n; afterwards it holds n * mult + add, if that fits. The inner loop of both
    conversions: mult 256 in base 58, and mult 58 in base 256.
  */
  method MulAdd(a: array<byte>, lo: nat, hi: nat, used: nat, base: nat, mult: nat, add: nat, ghost n: nat)
    returns (used': nat, fits: bool)
    requires lo <= hi <= a.Length && 2 <= base <= 256 && add < mult <= 256
    requires Holds(a[lo..hi], base, used, n)
    modifies a
    ensures a[..lo] == old(a[..lo]) && a[hi..] == old(a[hi..])
    ensures fits <==> |Digits(n * mult + add, base)| <= hi - lo
    ensures fits ==> Holds(a[lo..hi], base, used', n * mult + add)
  {
    PassStarts(a[lo..hi], base, mult, add, used, n);
    hide Pass, Holds;
    used', fits := Propagate(a, lo, hi, used, base, mult, add, n * mult + add);
  }

  method Propagate(a: array<byte>, lo: nat, hi: nat, used: nat, base: nat, mult: nat, add: nat, ghost t: nat)
    returns (j: nat, fits: bool)
    requires lo <= hi <= a.Length && 2 <= base <= 256 && mult <= 256
    requires Pass(a[lo..hi], base, mult, add, 0, used, t)
    modifies a
    ensures a[..lo] == old(a[..lo]) && a[hi..] == old(a[hi..])
    ensures fits <==> |Digits(t, base)| <= hi - lo
    ensures fits ==> Holds(a[lo..hi], base, j, t)
  {
    hide Pass, Holds, Digits;
    var carry := add;
    j, fits := 0, true;
    while carry != 0 || j < used
      invariant a[..lo] == old(a[..lo]) && a[hi..] == old(a[hi..])
      invariant Pass(a[lo..hi], base, mult, carry, j, used, t)
      decreases hi - lo - j
    {
      PassBounds(a[lo..hi], base, mult, carry, j, used, t);
      if j >= hi - lo {
        PassOverflows(a[lo..hi], base, mult, carry, used, t);
        return j, false;
      }
      ghost var w: seq<nat> := a[lo..hi];
      var q, r := PutDigit(a, lo, hi, hi - 1 - j, base, mult, carry);
      PassOn(w, base, mult, carry, j, used, t, q, r);
      carry := q;
      j := j + 1;
    }
    PassEnds(a[lo..hi], base, mult, j, used, t);
    HoldsFits(a[lo..hi], base, j, t);
  }

  /** One digit is scaled, the carry added, and the new carry split off. */
  method PutDigit(a: array<byte>, lo: nat, hi: nat, k: nat, base: nat, mult: nat, carry: nat) returns (q: nat, r: nat)
    requires lo <= k < hi <= a.Length && 2 <= base <= 256 && carry < mult <= 256
    modifies a
    ensures a[..lo] == old(a[..lo]) && a[hi..] == old(a[hi..])
    ensures a[lo..hi] == old(a[lo..hi])[k - lo := r] && r < base
    ensures carry + old(a[k]) * mult == q * base + r
  {
    var c: nat := carry + a[k] * mult;
    NoWrap(carry, a[k], mult);
    assert c < 0x1_0000_0000;
    DivMod(c, base);
    q, r := c / base, c % base;
    a[k] := r;
  }

  // ----------------------------------------------------------------------- encoding

  datatype Status = Ok | TooSmall | Empty | Unsupported | InvalidCharacter

  /** A character as it lies in the output buffer. */
  function CodeOf(c: char): byte { c as int % 256 }

  function Codes(t: string): (s: seq<byte>)
    ensures |s| == |t| && forall i :: 0 <= i < |t| ==> s[i] == CodeOf(t[i])
  {
    seq(|t|, i requires 0 <= i < |t| => CodeOf(t[i]))
  }

  /** If a prefix of the input already takes too many letters, so does the input. */
  lemma PrefixTooLong(x: seq<byte>, k: nat, cap: nat)
    requires k <= |x| && |Digits(Value(x[..k], 256), 58)| > cap
    ensures |Digits(Value(x, 256), 58)| > cap
  {
    PrefixSmaller(x, k, 256);
    DigitsLength(Value(x[..k], 256), 58, cap);
    DigitsLength(Value(x, 256), 58, cap);
  }

  /** Digits become letters while they move to the front: reads stay ahead of writes. */
  method CompactLetters(out: array<byte>, off: nat, start: nat, used: nat, ghost ds: seq<nat>)
    requires off + start + used <= out.Length && Below(ds, 58) && out[off + start..off + start + used] == ds
    modifies out
    ensures out[..off] == old(out[..off])
    ensures out[off..off + used] == Codes(Letters(ds))
  {
    assert forall k :: 0 <= k < used ==> out[off + start + k] == ds[k];
    var i := 0;
    while i < used
      invariant i <= used && out[..off] == old(out[..off])
      invariant forall k :: i <= k < used ==> out[off + start + k] == ds[k]
      invariant forall k :: 0 <= k < i ==> out[off + k] == CodeOf(Letter(ds[k]))
    {
      hide Letter;
      assert out[off + start + i] == ds[i] < 58;
      out[off + i] := CodeOf(Letter(out[off + start + i]));
      i := i + 1;
    }
  }

  method CountZeros(x: seq<byte>) returns (z: nat)
    ensures z == ZerosIn(x)
  {
    z := 0;
    while z < |x| && x[z] == 0
      invariant z <= |x| && forall i :: 0 <= i < z ==> x[i] == 0
    {
      z := z + 1;
    }
  }

  method PutPrefix(out: array<byte>, z: nat)
    requires 1 + z <= out.Length
    modifies out
    ensures out[..1 + z] == Codes("z" + Ones(z)) && out[1 + z..] == old(out[1 + z..])
  {
    out[0] := CodeOf('z');
    var i := 0;
    while i < z
      invariant i <= z && out[0] == CodeOf('z') && out[1 + z..] == old(out[1 + z..])
      invariant forall k :: 1 <= k < 1 + i ==> out[k] == CodeOf('1')
    {
      out[1 + i] := CodeOf('1');
      i := i + 1;
    }
  }

  /** What a failed call reports: an upper bound on the room, saturating. */
  function RequiredBound(x: seq<byte>): nat {
    var z := ZerosIn(x);
    if z == |x| then 1 + z
    else if LettersBound(|x| - z) == SIZE_MAX || 1 + z + LettersBound(|x| - z) > SIZE_MAX then SIZE_MAX
    else 1 + z + LettersBound(|x| - z)
  }

  method Clear(out: array<byte>, off: nat)
    requires off <= out.Length
    modifies out
    ensures out[..off] == old(out[..off]) && forall k :: 0 <= k < out.Length - off ==> out[off..][k] == 0
  {
    var i := off;
    while i < out.Length
      invariant off <= i <= out.Length && out[..off] == old(out[..off])
      invariant forall k :: off <= k < i ==> out[k] == 0
    {
      out[i] := 0;
      i := i + 1;
    }
  }

  /** The scratch digits of out[off..] come to hold the number that x denotes, unless it takes more room. */
  method FillScratch(x: seq<byte>, z: nat, out: array<byte>, off: nat) returns (used: nat, fits: bool)
    requires z == ZerosIn(x) && off <= out.Length
    modifies out
    ensures fits <==> |Digits(Value(x, 256), 58)| <= out.Length - off
    ensures fits ==> Holds(out[off..], 58, used, Value(x, 256))
  {
    Clear(out, off);
    var i := z;
    used, fits := 0, true;
    ValueZeros(x[..z], 256);
    HoldsZero(out[off..], 58);
    assert out[off..] == out[off..out.Length];
    hide Holds, Digits;
    while i < |x|
      invariant z <= i <= |x| && Holds(out[off..out.Length], 58, used, Value(x[..i], 256))
    {
      assert x[..i + 1][..i] == x[..i];
      used, fits := MulAdd(out, off, out.Length, used, 58, 256, x[i], Value(x[..i], 256));
      if !fits {
        PrefixTooLong(x, i + 1, out.Length - off);
        return;
      }
      i := i + 1;
    }
    assert x[..i] == x && out[off..] == out[off..out.Length];
    HoldsFits(out[off..], 58, used, Value(x, 256));
  }

  lemma HoldsFits(w: seq<nat>, base: nat, used: nat, n: nat)
    requires base >= 2 && Holds(w, base, used, n)
    ensures used == |Digits(n, base)| <= |w|
  {
  }

  /** The length of an encoding, and its text split where the scratch begins. */
  lemma EncodingParts(x: seq<byte>)
    ensures |Encode(x)| == 1 + ZerosIn(x) + |Digits(Value(x, 256), 58)|
    ensures Below(Digits(Value(x, 256), 58), 58)
    ensures Codes(Encode(x)) == Codes("z" + Ones(ZerosIn(x))) + Codes(Letters(Digits(Value(x, 256), 58)))
    ensures ZerosIn(x) == |x| <==> Digits(Value(x, 256), 58) == []
  {
    hide Digits, Value, Letters, Encode;
    hide Codes;
    var z, ds := ZerosIn(x), Digits(Value(x, 256), 58);
    EncodeParts(x, z, ds);
    if z == |x| {
      ValueZeros(x, 256);
      NoDigits(58);
    } else {
      ValueSkip(x, 256, z);
      LeadingPositive(x[z..], 256);
      DigitsDenote(Value(x, 256), 58);
    }
    assert "z" + (Ones(z) + Letters(ds)) == ("z" + Ones(z)) + Letters(ds);
    CodesConcat("z" + Ones(z), Letters(ds));
  }

  lemma CodesConcat(s: string, t: string)
    ensures Codes(s + t) == Codes(s) + Codes(t)
  {
  }

  /**
    libp2p_multibase_encode for base58btc. It succeeds exactly when the buffer holds the prefix, the leading
    ones and the minimal number of letters, and then the buffer begins with the encoding.
  */
  method EncodeInto(x: seq<byte>, out: array<byte>) returns (err: Status, written: nat)
    modifies out
    ensures err == Ok || err == TooSmall
    ensures err == Ok <==> |Encode(x)| <= out.Length
    ensures err == Ok ==> written == |Encode(x)| && out[..written] == Codes(Encode(x))
    ensures err == TooSmall ==> written == RequiredBound(x)
  {
    EncodingParts(x);
    hide Encode, Digits, Value, Letters;
    var z := CountZeros(x);
    written := RequiredBound(x);
    if z == |x| {
      if out.Length < written { return TooSmall, written; }
      PutPrefix(out, z);
      assert Codes(Letters(Digits(Value(x, 256), 58))) == [];
      err := Ok;
    } else {
      if out.Length <= 1 + z { return TooSmall, written; }
      var used, fits := EncodeNumber(x, z, out);
      if !fits { return TooSmall, written; }
      err, written := Ok, 1 + z + used;
    }
  }

  method EncodeNumber(x: seq<byte>, z: nat, out: array<byte>) returns (used: nat, fits: bool)
    requires z == ZerosIn(x) && 1 + z <= out.Length && Below(Digits(Value(x, 256), 58), 58)
    modifies out
    ensures fits <==> 1 + z + |Digits(Value(x, 256), 58)| <= out.Length
    ensures fits ==>
      && used == |Digits(Value(x, 256), 58)|
      && out[..1 + z + used] == Codes("z" + Ones(z)) + Codes(Letters(Digits(Value(x, 256), 58)))
  {
    hide Digits, Value, Letters;
    used, fits := FillScratch(x, z, out, 1 + z);
    if fits {
      HoldsDigits(out[1 + z..], 58, used, Value(x, 256));
      HoldsFits(out[1 + z..], 58, used, Value(x, 256));
      hide Holds;
      FinishEncode(out, z, used, Digits(Value(x, 256), 58));
    }
  }

  method FinishEncode(out: array<byte>, z: nat, used: nat, ghost ds: seq<nat>)
    requires 1 + z + used <= out.Length && Below(ds, 58) && out[1 + z..][out.Length - (1 + z) - used..] == ds
    modifies out
    ensures out[..1 + z + used] == Codes("z" + Ones(z)) + Codes(Letters(ds))
  {
    hide Letters, Codes;
    var off := 1 + z;
    var start := out.Length - off - used;
    assert out[off..][start..] == out[off + start..off + start + used];
    CompactLetters(out, off, start, used, ds);
    PutPrefixBefore(out, z, used);
  }

  method PutPrefixBefore(out: array<byte>, z: nat, used: nat)
    requires 1 + z + used <= out.Length
    modifies out
    ensures out[..1 + z + used] == Codes("z" + Ones(z)) + old(out[1 + z..1 + z + used])
  {
    ghost var tail := out[1 + z..];
    PutPrefix(out, z);
    assert out[1 + z..1 + z + used] == tail[..used];
  }

  // ----------------------------------------------------------------------- decoding

  method CountOnes(t: string) returns (z: nat)
    requires t != []
    ensures z == OnesIn(t[1..])
  {
    z := 0;
    while 1 + z < |t| && t[1 + z] == '1'
      invariant 1 + z <= |t| && forall i :: 0 <= i < z ==> t[1..][i] == '1'
    {
      z := z + 1;
    }
  }

  /** multibase_base58_value */
  method FindRank(c: char) returns (d: nat)
    ensures d == Rank(c)
  {
    d := 0;
    while d < 58 && Letter(d) != c
      invariant d <= 58 && RankFrom(c, d) == RankFrom(c, 0)
    {
      hide Letter;
      d := d + 1;
    }
  }

  /** If a prefix of the letters already takes too many bytes, so do all of them. */
  lemma PrefixTooWide(ds: seq<nat>, k: nat, cap: nat)
    requires k <= |ds| && |Digits(Value(ds[..k], 58), 256)| > cap
    ensures |Digits(Value(ds, 58), 256)| > cap
  {
    PrefixSmaller(ds, k, 58);
    DigitsLength(Value(ds[..k], 58), 256, cap);
    DigitsLength(Value(ds, 58), 256, cap);
  }

  /**
    Every letter is checked; while the window is large enough it comes to hold the number. A letter that is not
    one is reported even when the window is too small.
  */
  method FillBytes(p: string, z: nat, out: array<byte>) returns (used: nat, fits: bool, valid: bool)
    requires z == OnesIn(p)
    modifies out
    ensures valid == Lettered(p)
    ensures valid ==> (fits <==> |Digits(Value(Ranks(p), 58), 256)| <= out.Length)
    ensures valid && fits ==> Holds(out[..], 256, used, Value(Ranks(p), 58))
  {
    hide Filling, Holds, Digits, Value, Rank, Letter;
    ghost var ds := Ranks(p);
    StartBytes(p, z, out);
    used, fits, valid := 0, true, true;
    var i := z;
    while i < |p|
      invariant z <= i <= |p| && forall k :: 0 <= k < i ==> Rank(p[k]) < 58
      invariant Filling(out[..], ds, i, used, fits)
    {
      var d := FindRank(p[i]);
      if d == 58 { return used, fits, false; }
      used, fits := AddLetter(out, ds, i, d, used, fits);
      i := i + 1;
    }
    FilledUp(out[..], ds, used, fits);
  }

  method StartBytes(p: string, z: nat, out: array<byte>)
    requires z == OnesIn(p)
    modifies out
    ensures Filling(out[..], Ranks(p), z, 0, true)
    ensures forall k :: 0 <= k < z ==> Rank(p[k]) < 58
  {
    Clear(out, 0);
    LeadingOnes(p, z);
    assert out[0..] == out[..];
    hide Rank, Digits, Value;
    HoldsZero(out[..], 256);
    hide Holds;
  }

  /** The window holds the first i letters, or the whole number will not fit it. */
  ghost predicate Filling(w: seq<nat>, ds: seq<nat>, i: nat, used: nat, fits: bool)
    requires i <= |ds|
  {
    if fits then Holds(w, 256, used, Value(ds[..i], 58)) else |Digits(Value(ds, 58), 256)| > |w|
  }

  lemma FilledUp(w: seq<nat>, ds: seq<nat>, used: nat, fits: bool)
    requires Filling(w, ds, |ds|, used, fits)
    ensures fits <==> |Digits(Value(ds, 58), 256)| <= |w|
    ensures fits ==> Holds(w, 256, used, Value(ds, 58))
  {
    assert ds[..|ds|] == ds;
    if fits { HoldsFits(w, 256, used, Value(ds, 58)); }
  }

  method AddLetter(out: array<byte>, ghost ds: seq<nat>, ghost i: nat, d: nat, used: nat, fits: bool)
    returns (used': nat, fits': bool)
    requires i < |ds| && ds[i] == d < 58 && Filling(out[..], ds, i, used, fits)
    modifies out
    ensures Filling(out[..], ds, i + 1, used', fits')
  {
    used', fits' := used, fits;
    if fits {
      assert ds[..i + 1][..i] == ds[..i];
      assert out[..] == out[0..out.Length];
      hide Holds, Digits;
      used', fits' := MulAdd(out, 0, out.Length, used, 256, 58, d, Value(ds[..i], 58));
      assert out[..] == out[0..out.Length];
      if !fits' { PrefixTooWide(ds, i + 1, out.Length); }
    }
  }

  lemma LeadingOnes(p: string, z: nat)
    requires z == OnesIn(p)
    ensures Value(Ranks(p)[..z], 58) == 0 && forall k :: 0 <= k < z ==> Ranks(p)[k] == 0 && Rank(p[k]) < 58
  {
    hide Rank;
    FirstLetter();
    ValueZeros(Ranks(p)[..z], 58);
  }

  /** The bytes move forward over the gap: reads stay ahead of writes. */
  method MoveBytes(out: array<byte>, z: nat, used: nat)
    requires z + used <= out.Length
    modifies out
    ensures out[z..z + used] == old(out[out.Length - used..])
  {
    var start := out.Length - used;
    ghost var xs := out[start..];
    var i := 0;
    while i < used
      invariant i <= used
      invariant forall k :: i <= k < used ==> out[start + k] == xs[k]
      invariant forall k :: 0 <= k < i ==> out[z + k] == xs[k]
    {
      out[z + i] := out[start + i];
      i := i + 1;
    }
    assert out[z..z + used] == xs;
  }

  /** Then the leading zeros are written. */
  method CompactBytes(out: array<byte>, z: nat, used: nat)
    requires z + used <= out.Length
    modifies out
    ensures out[..z + used] == Zeros(z) + old(out[out.Length - used..])
  {
    MoveBytes(out, z, used);
    ghost var xs := out[z..z + used];
    var i := 0;
    while i < z
      invariant i <= z && out[z..z + used] == xs
      invariant forall k :: 0 <= k < i ==> out[k] == 0
    {
      out[i] := 0;
      i := i + 1;
    }
    assert out[..z] == Zeros(z);
    assert out[..z + used] == out[..z] + out[z..z + used];
  }

  /**
    libp2p_multibase_decode on a base58btc text. It succeeds exactly when the text is valid and the buffer holds
    the bytes; an invalid character is reported before a lack of room.
  */
  method DecodeInto(t: string, out: array<byte>) returns (err: Status, written: nat)
    modifies out
    ensures
      err ==
        match Decode(t)
        case EmptyInput => Empty
        case OtherBase => Unsupported
        case BadCharacter => InvalidCharacter
        case Bytes(x) => if |x| <= out.Length then Ok else TooSmall
    ensures err == Ok ==> written == |Decode(t).bytes| && out[..written] == Decode(t).bytes
    ensures err == TooSmall ==> written == |t| - 1
  {
    if t == [] { return Empty, 0; }
    if t[0] != 'z' { return Unsupported, 0; }
    var fits, valid, n := DecodePayload(t, out);
    hide Digits, Value, Lettered, Ranks, OnesIn, Number;
    if !valid { return InvalidCharacter, |t| - 1; }
    if !fits { return TooSmall, |t| - 1; }
    err, written := Ok, n;
  }

  method DecodePayload(t: string, out: array<byte>) returns (fits: bool, valid: bool, n: nat)
    requires t != []
    modifies out
    ensures valid == Lettered(t[1..])
    ensures valid ==>
      var x := Zeros(OnesIn(t[1..])) + Number(t[1..]);
      fits == (|x| <= out.Length) && (fits ==> n == |x| && out[..n] == x)
  {
    hide Digits, Value, Lettered, Ranks, Holds, OnesIn;
    var z := CountOnes(t);
    ghost var v := Value(Ranks(t[1..]), 58);
    var used;
    used, fits, valid := FillBytes(t[1..], z, out);
    n := 0;
    if valid && fits {
      HoldsDigits(out[..], 256, used, v);
      HoldsFits(out[..], 256, used, v);
      n := z + used;
      fits := n <= out.Length;
      if fits {
        assert out[..][|out[..]| - used..] == out[out.Length - used..];
        CompactBytes(out, z, used);
      }
    }
  }

  /** The bound a failed decode reports is always enough. */
  lemma DecodedFits(t: string)
    requires Decode(t).Bytes?
    ensures |Decode(t).bytes| <= |t| - 1
  {
    hide Digits, Value, Ranks, Lettered;
    NumberFits(t[1..]);
  }

  lemma NumberFits(p: string)
    requires Lettered(p)
    ensures OnesIn(p) + |Digits(Value(Ranks(p), 58), 256)| <= |p|
  {
    hide Rank, Digits;
    hide Value, Pow;
    var z := OnesIn(p);
    var ds := Ranks(p);
    LeadingOnes(p, z);
    ValueSkip(ds, 58, z);
    assert Below(ds[z..], 58);
    ValueBelow(ds[z..], 58);
    PowBase(58, 256, |p| - z);
    DigitsLength(Value(ds, 58), 256, |p| - z);
  }
}
