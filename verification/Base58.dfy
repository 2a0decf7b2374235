/** base58btc with its multibase prefix 'z': what text stands for which bytes, and how much room it takes. */
module Base58 {
  import opened Bytes
  import opened Radix

  /** The 58 letters: no zero, no capital I or O, no small l. */
  const ALPHABET: string := "123456789" + "ABCDEFGH" + "JKLMN" + "PQRSTUVWXYZ" + "abcdefghijk" + "mnopqrstuvwxyz"

  function Letter(d: nat): char
    requires d < 58
  {
    ALPHABET[d]
  }

  /** Where a character stands in the alphabet, or 58. */
  function Rank(c: char): (d: nat)
    ensures d <= 58 && (d < 58 ==> Letter(d) == c)
  {
    RankFrom(c, 0)
  }

  function RankFrom(c: char, k: nat): (d: nat)
    requires k <= 58
    ensures k <= d <= 58 && (d < 58 ==> Letter(d) == c)
    decreases 58 - k
  {
    if k == 58 then 58 else if Letter(k) == c then k else RankFrom(c, k + 1)
  }

  lemma {:induction false} RankFinds(d: nat, k: nat)
    requires k <= d < 58
    ensures RankFrom(Letter(d), k) < 58
    decreases d - k
  {
    if k < d && Letter(k) != Letter(d) { RankFinds(d, k + 1); }
  }

  /** The alphabet is in character order, so no letter occurs twice. */
  function Code(d: nat): nat {
    if d < 9 then 49 + d else if d < 17 then 65 + (d - 9) else if d < 22 then 74 + (d - 17)
    else if d < 33 then 80 + (d - 22) else if d < 44 then 97 + (d - 33) else 109 + (d - 44)
  }

  lemma FirstLetters(d: nat)
    requires d < 22
    ensures Letter(d) as int == Code(d)
  {
    if d < 9 { assert ALPHABET[d] == "123456789"[d]; }
    else if d < 17 { assert ALPHABET[d] == "ABCDEFGH"[d - 9]; }
    else { assert ALPHABET[d] == "JKLMN"[d - 17]; }
  }

  lemma LastLetters(d: nat)
    requires 22 <= d < 58
    ensures Letter(d) as int == Code(d)
  {
    if d < 33 { assert ALPHABET[d] == "PQRSTUVWXYZ"[d - 22]; }
    else if d < 44 { assert ALPHABET[d] == "abcdefghijk"[d - 33]; }
    else { assert ALPHABET[d] == "mnopqrstuvwxyz"[d - 44]; }
  }

  lemma AlphabetOrder(d: nat)
    requires d < 58
    ensures Letter(d) as int == Code(d)
  {
    if d < 22 { FirstLetters(d); } else { LastLetters(d); }
  }

  lemma AlphabetDistinct(d: nat, e: nat)
    requires d < 58 && e < 58 && Letter(d) == Letter(e)
    ensures d == e
  {
    hide Letter;
    AlphabetOrder(d);
    AlphabetOrder(e);
  }

  lemma RankOfLetter(d: nat)
    requires d < 58
    ensures Rank(Letter(d)) == d
  {
    hide Letter;
    RankFinds(d, 0);
    AlphabetDistinct(d, Rank(Letter(d)));
  }

  /** The letter for zero. */
  lemma FirstLetter()
    ensures Letter(0) == '1' && Rank('1') == 0
  {
    hide Letter;
    AlphabetOrder(0);
    RankOfLetter(0);
  }

  // ------------------------------------------------------------------- the mapping

  /** How many zero bytes lead. */
  function ZerosIn(x: seq<byte>): (k: nat)
    ensures k <= |x| && (k < |x| ==> x[k] != 0)
    ensures forall i :: 0 <= i < k ==> x[i] == 0
  {
    if x == [] || x[0] != 0 then 0
    else
      var k := ZerosIn(x[1..]);
      assert forall i :: 1 <= i < k + 1 ==> x[i] == x[1..][i - 1];
      k + 1
  }

  /** How many ones lead. */
  function OnesIn(t: string): (k: nat)
    ensures k <= |t| && (k < |t| ==> t[k] != '1')
    ensures forall i :: 0 <= i < k ==> t[i] == '1'
  {
    if t == [] || t[0] != '1' then 0
    else
      var k := OnesIn(t[1..]);
      assert forall i :: 1 <= i < k + 1 ==> t[i] == t[1..][i - 1];
      k + 1
  }

  function Zeros(n: nat): (s: seq<byte>)
    ensures |s| == n && forall i :: 0 <= i < n ==> s[i] == 0
  {
    seq(n, _ => 0)
  }

  function Ones(n: nat): (s: string)
    ensures |s| == n && forall i :: 0 <= i < n ==> s[i] == '1'
  {
    seq(n, _ => '1')
  }

  function Letters(ds: seq<nat>): (t: string)
    requires Below(ds, 58)
    ensures |t| == |ds| && forall i :: 0 <= i < |t| ==> t[i] == Letter(ds[i])
  {
    seq(|ds|, i requires 0 <= i < |ds| => Letter(ds[i]))
  }

  function Ranks(t: string): (ds: seq<nat>)
    ensures |ds| == |t| && forall i :: 0 <= i < |t| ==> ds[i] == Rank(t[i])
  {
    seq(|t|, i requires 0 <= i < |t| => Rank(t[i]))
  }

  predicate Lettered(t: string) {
    forall i :: 0 <= i < |t| ==> Rank(t[i]) < 58
  }

  /** One '1' for each leading zero byte, then the number in base 58. */
  function Encode(x: seq<byte>): string {
    var n := Value(x, 256);
    DigitsDenote(n, 58);
    "z" + (Ones(ZerosIn(x)) + Letters(Digits(n, 58)))
  }

  datatype Decoded = Bytes(bytes: seq<byte>) | EmptyInput | OtherBase | BadCharacter

  function Decode(t: string): Decoded {
    if t == [] then EmptyInput
    else if t[0] != 'z' then OtherBase
    else if !Lettered(t[1..]) then BadCharacter
    else Bytes(Zeros(OnesIn(t[1..])) + Number(t[1..]))
  }

  /** The bytes of the number that the letters denote. */
  function Number(t: string): (x: seq<byte>)
    ensures x == Digits(Value(Ranks(t), 58), 256)
  {
    DigitsDenote(Value(Ranks(t), 58), 256);
    Digits(Value(Ranks(t), 58), 256)
  }

  /** Leading zeros aside, bytes and base-256 digits are the same thing. */
  lemma BytesAreDigits(x: seq<byte>, z: nat)
    requires z <= |x| && (z < |x| ==> x[z] != 0) && forall i :: 0 <= i < z ==> x[i] == 0
    ensures Digits(Value(x, 256), 256) == x[z..]
  {
    ValueSkip(x, 256, z);
    DigitsUnique(x[z..], 256);
  }

  lemma LettersAreDigits(t: string, z: nat)
    requires Lettered(t) && z <= |t| && (z < |t| ==> t[z] != '1') && forall i :: 0 <= i < z ==> t[i] == '1'
    ensures Below(Ranks(t)[z..], 58)
    ensures Digits(Value(Ranks(t), 58), 58) == Ranks(t)[z..] && Letters(Ranks(t)[z..]) == t[z..]
  {
    hide Letter, Rank;
    var ds := Ranks(t);
    FirstLetter();
    ValueSkip(ds, 58, z);
    DigitsUnique(ds[z..], 58);
  }

  lemma RanksOfLetters(ds: seq<nat>)
    requires Below(ds, 58)
    ensures Lettered(Letters(ds)) && Ranks(Letters(ds)) == ds
  {
    hide Letter, Rank;
    forall i | 0 <= i < |ds| ensures Rank(Letters(ds)[i]) == ds[i] { RankOfLetter(ds[i]); }
  }

  /** A text of ones and letters: its leading ones, and the number it denotes. */
  lemma RanksOfText(z: nat, p: string)
    requires Lettered(p) && (p != [] ==> p[0] != '1')
    ensures Lettered(Ones(z) + p) && OnesIn(Ones(z) + p) == z
    ensures Value(Ranks(Ones(z) + p), 58) == Value(Ranks(p), 58)
  {
    hide Letter, Rank, Value;
    var t := Ones(z) + p;
    FirstLetter();
    assert Ranks(t)[z..] == Ranks(p);
    ValueSkip(Ranks(t), 58, z);
  }

  lemma TextDecodes(z: nat, ds: seq<nat>, x: seq<byte>)
    requires Below(ds, 58) && (ds != [] ==> ds[0] != 0) && Digits(Value(ds, 58), 256) == x
    ensures Decode("z" + (Ones(z) + Letters(ds))) == Bytes(Zeros(z) + x)
  {
    hide Digits, Value, Letter, Rank;
    hide Letters, Ranks, Lettered, Ones, Decode;
    var p := Letters(ds);
    RanksOfLetters(ds);
    if ds != [] { NotOne(ds); }
    RanksOfText(z, p);
    DecodeParts(z, p);
  }

  lemma SplitZeros(x: seq<byte>, z: nat)
    requires ZerosIn(x) == z
    ensures x == Zeros(z) + x[z..]
  {
    assert x[..z] == Zeros(z);
  }

  /** decode(encode(x)) = x, leading zeros included. */
  lemma RoundTrip(x: seq<byte>)
    ensures Decode(Encode(x)) == Bytes(x)
  {
    hide Value, Letter, Decode, Letters, Encode, Zeros, Ones;
    hide Digits;
    var z, n := ZerosIn(x), Value(x, 256);
    var ds := Digits(n, 58);
    DigitsDenote(n, 58);
    if n == 0 { NoDigits(58); }
    EncodeParts(x, z, ds);
    BytesAreDigits(x, z);
    SplitZeros(x, z);
    TextDecodes(z, ds, x[z..]);
  }

  lemma NotOne(ds: seq<nat>)
    requires Below(ds, 58) && ds != [] && ds[0] != 0
    ensures Letters(ds)[0] != '1'
  {
    hide Letter;
    FirstLetter();
    if Letter(ds[0]) == Letter(0) { AlphabetDistinct(ds[0], 0); }
  }

  lemma DecodeParts(z: nat, p: string)
    requires Lettered(Ones(z) + p) && OnesIn(Ones(z) + p) == z
    requires Value(Ranks(Ones(z) + p), 58) == Value(Ranks(p), 58)
    ensures Decode("z" + (Ones(z) + p)) == Bytes(Zeros(z) + Number(p))
  {
    hide Lettered, Ranks, Value, Digits, OnesIn, ZerosIn;
    var t := Ones(z) + p;
    assert ("z" + t)[1..] == t;
  }

  lemma EncodeParts(x: seq<byte>, z: nat, ds: seq<nat>)
    requires ZerosIn(x) == z && Digits(Value(x, 256), 58) == ds
    ensures Below(ds, 58) && Encode(x) == "z" + (Ones(z) + Letters(ds))
  {
    hide Digits, Value;
    DigitsDenote(Value(x, 256), 58);
  }

  lemma ZerosThen(z: nat, d: seq<byte>, n: nat)
    requires Digits(n, 256) == d
    ensures ZerosIn(Zeros(z) + d) == z && Value(Zeros(z) + d, 256) == n
  {
    hide Digits;
    var x: seq<byte> := Zeros(z) + d;
    DigitsDenote(n, 256);
    assert x[z..] == d;
    if n == 0 { NoDigits(256); }
    ValueSkip(x, 256, z);
  }

  lemma SplitOnes(p: string, z: nat)
    requires OnesIn(p) == z
    ensures p == Ones(z) + p[z..]
  {
    assert p[..z] == Ones(z);
  }

  lemma BytesEncode(z: nat, x: seq<byte>, p: string)
    requires Lettered(p) && OnesIn(p) == z && Digits(Value(Ranks(p), 58), 256) == x
    ensures Encode(Zeros(z) + x) == "z" + p
  {
    hide Digits, Value, Encode, OnesIn, ZerosIn, Letter, Rank, Letters, Zeros, Ones;
    hide Lettered, Ranks;
    ZerosThen(z, x, Value(Ranks(p), 58));
    SplitOnes(p, z);
    LettersAreDigits(p, z);
    EncodeParts(Zeros(z) + x, z, Ranks(p)[z..]);
  }

  /** encode(decode(t)) = t: no two texts decode to the same bytes. */
  lemma Canonical(t: string)
    requires Decode(t).Bytes?
    ensures Encode(Decode(t).bytes) == t
  {
    hide Digits, Value, Lettered, Encode, Number, OnesIn, ZerosIn;
    BytesEncode(OnesIn(t[1..]), Number(t[1..]), t[1..]);
    assert t == "z" + t[1..];
  }

  // ----------------------------------------------------------------------- sizes

  /** 256^100 <= 58^138, because 2^35 <= 58^6. */
  lemma Hundred()
    ensures Pow(256, 100) <= Pow(58, 138)
  {
    PowPow(2, 8, 100);
    assert Pow(2, 8) == 256;
    PowPow(58, 6, 23);
    PowPow(2, 35, 23);
    assert Pow(2, 35) <= Pow(58, 6) by { SixLetters(); }
    PowBase(Pow(2, 35), Pow(58, 6), 23);
    PowMonotone(2, 800, 805);
  }

  lemma SixLetters()
    ensures Pow(2, 35) <= Pow(58, 6)
  {
    PowAdd(2, 20, 15);
    PowAdd(2, 10, 10);
    assert Pow(2, 10) == 1024;
    assert Pow(2, 15) == 32768 by { PowAdd(2, 10, 5); }
    assert Pow(58, 2) == 3364;
    assert Pow(58, 6) == 3364 * (3364 * 3364) by { PowAdd(58, 2, 4); PowAdd(58, 2, 2); }
  }

  /** So n bytes never need more than floor(138 n / 100) + 1 letters. */
  lemma EnoughLetters(n: nat)
    ensures Pow(256, n) <= Pow(58, 138 * n / 100 + 1)
  {
    var k := 138 * n / 100 + 1;
    Hundred();
    PowPow(256, n, 100);
    PowPow(256, 100, n);
    assert n * 100 == 100 * n;
    PowPow(58, 138, n);
    PowPow(58, k, 100);
    PowBase(Pow(256, 100), Pow(58, 138), n);
    PowMonotone(58, 138 * n, k * 100);
    if Pow(58, k) < Pow(256, n) { PowBaseStrict(Pow(58, k), Pow(256, n), 100); }
  }

  const SIZE_MAX: nat := 0xFFFF_FFFF_FFFF_FFFF

  /** multibase_base58_encoded_upper_bound */
  function LettersBound(n: nat): nat {
    if n == 0 then 0 else if n * 138 > SIZE_MAX then SIZE_MAX else n * 138 / 100 + 1
  }

  /** libp2p_multibase_encoded_size */
  function EncodedSize(n: nat): nat {
    if LettersBound(n) == SIZE_MAX then SIZE_MAX else 1 + LettersBound(n)
  }

  lemma LettersFit(x: seq<byte>)
    ensures |Digits(Value(x, 256), 58)| <= if x == [] then 0 else |x| * 138 / 100 + 1
  {
    var k := |x| * 138 / 100 + 1;
    assert Below(x, 256);
    ValueBelow(x, 256);
    if x != [] {
      EnoughLetters(|x|);
      DigitsLength(Value(x, 256), 58, k);
    } else {
      NoDigits(58);
    }
  }

  /** The reported size is always enough, for every input whose size computation does not saturate. */
  lemma SizeEnough(x: seq<byte>)
    ensures |x| * 138 <= SIZE_MAX ==> |Encode(x)| <= EncodedSize(|x|) < SIZE_MAX
    ensures |x| * 138 > SIZE_MAX ==> EncodedSize(|x|) == SIZE_MAX
  {
    var z := ZerosIn(x);
    DigitsDenote(Value(x, 256), 58);
    ValueSkip(x, 256, z);
    LettersFit(x[z..]);
    if x[z..] == [] { NoDigits(58); }
  }
}
