/** Numbers as big-endian digit sequences in any base, and powers. */
module Radix {
  import opened Bytes

  /** What a digit sequence denotes. */
  function Value(s: seq<nat>, b: nat): nat {
    if s == [] then 0 else Value(s[..|s| - 1], b) * b + s[|s| - 1]
  }

  /** The shortest digit sequence that denotes n. */
  function Digits(n: nat, b: nat): seq<nat>
    requires b >= 2
  {
    if n == 0 then [] else Digits(n / b, b) + [n % b]
  }

  predicate Below(s: seq<nat>, b: nat) {
    forall i :: 0 <= i < |s| ==> s[i] < b
  }

  // -------------------------------------------------------------------- powers

  lemma {:induction false} PowPositive(b: nat, e: nat)
    requires b >= 1
    ensures Pow(b, e) >= 1
  {
    if e > 0 { PowPositive(b, e - 1); }
  }

  lemma {:induction false} PowAdd(b: nat, e: nat, f: nat)
    ensures Pow(b, e + f) == Pow(b, e) * Pow(b, f)
  {
    if e > 0 {
      PowAdd(b, e - 1, f);
      Associate(b, Pow(b, e - 1), Pow(b, f));
    }
  }

  lemma Associate(x: nat, y: nat, z: nat)
    ensures x * (y * z) == x * y * z
  {
  }

  lemma {:induction false} PowPow(b: nat, e: nat, f: nat)
    ensures Pow(Pow(b, e), f) == Pow(b, e * f)
  {
    if f == 0 {
      assert e * f == 0;
    } else {
      PowPow(b, e, f - 1);
      assert e * f == e + e * (f - 1);
      PowAdd(b, e, e * (f - 1));
    }
  }

  lemma {:induction false} PowMonotone(b: nat, e: nat, f: nat)
    requires b >= 1 && e <= f
    ensures Pow(b, e) <= Pow(b, f)
  {
    PowAdd(b, f - e, e);
    PowPositive(b, f - e);
    PowPositive(b, e);
    assert f - e + e == f;
    Times(Pow(b, f - e), Pow(b, e));
  }

  lemma Times(k: nat, n: nat)
    requires k >= 1
    ensures k * n >= n
  {
    assert k * n == (k - 1) * n + n;
  }

  lemma TimesMonotone(a: nat, b: nat, c: nat, d: nat)
    requires a <= b && c <= d
    ensures a * c <= b * d
  {
    assert b * d == b * c + b * (d - c);
    assert b * c == a * c + (b - a) * c;
  }

  lemma {:induction false} PowBase(a: nat, b: nat, e: nat)
    requires a <= b
    ensures Pow(a, e) <= Pow(b, e)
  {
    if e > 0 {
      PowBase(a, b, e - 1);
      TimesMonotone(a, b, Pow(a, e - 1), Pow(b, e - 1));
    }
  }

  lemma {:induction false} PowBaseStrict(a: nat, b: nat, e: nat)
    requires a < b && e >= 1
    ensures Pow(a, e) < Pow(b, e)
  {
    PowBase(a, b, e - 1);
    PowPositive(b, e - 1);
    TimesMonotone(a, b - 1, Pow(a, e - 1), Pow(b, e - 1));
    assert b * Pow(b, e - 1) == (b - 1) * Pow(b, e - 1) + Pow(b, e - 1);
  }

  // -------------------------------------------------------------------- digits

  lemma ValueSnoc(s: seq<nat>, d: nat, b: nat)
    ensures Value(s + [d], b) == Value(s, b) * b + d
  {
    assert (s + [d])[..|s|] == s;
  }

  lemma DigitsSnoc(n: nat, b: nat) returns (q: nat, r: nat)
    requires b >= 2 && n > 0
    ensures n == q * b + r && r < b && q < n && Digits(n, b) == Digits(q, b) + [r]
  {
    hide Digits;
    q, r := n / b, n % b;
    assert Digits(n, b) == Digits(q, b) + [r] by { DigitsUnfold(n, b); }
    if q > 0 { StepApart(1, b, q); }
  }

  lemma DigitsUnfold(n: nat, b: nat)
    requires b >= 2 && n > 0
    ensures Digits(n, b) == Digits(n / b, b) + [n % b]
  {
  }

  lemma {:induction false} DigitsDenote(n: nat, b: nat)
    requires b >= 2
    ensures Value(Digits(n, b), b) == n && Below(Digits(n, b), b)
    ensures n > 0 ==> Digits(n, b) != [] && Digits(n, b)[0] != 0
  {
    if n > 0 {
      var q, r := DigitsSnoc(n, b);
      hide Digits;
      DigitsDenote(q, b);
      ValueSnoc(Digits(q, b), r, b);
      if q == 0 { NoDigits(b); }
    }
  }

  lemma NoDigits(b: nat)
    requires b >= 2
    ensures Digits(0, b) == []
  {
  }

  /** Without a leading zero the digits are determined by the number. */
  lemma {:induction false} DigitsUnique(s: seq<nat>, b: nat)
    requires b >= 2 && Below(s, b) && (s != [] ==> s[0] != 0)
    ensures Digits(Value(s, b), b) == s
  {
    if s != [] {
      var k := |s| - 1;
      var n := Value(s[..k], b);
      DigitsUnique(s[..k], b);
      Quotient(n, s[k], b);
      assert Value(s, b) > 0 by {
        if k > 0 { LeadingPositive(s[..k], b); Times(n, b); }
      }
      assert s[..k] + [s[k]] == s;
    }
  }

  lemma LeadingPositive(s: seq<nat>, b: nat)
    requires b >= 1 && s != [] && s[0] != 0
    ensures Value(s, b) > 0
  {
    ValueLow(s, b);
    PowPositive(b, |s| - 1);
    Times(s[0], Pow(b, |s| - 1));
  }

  lemma StepApart(n: nat, q: nat, b: nat)
    ensures n < q ==> n * b + b <= q * b
  {
    if n < q {
      assert q * b == n * b + (q - n) * b;
      Times(q - n, b);
    }
  }

  lemma Quotient(n: nat, d: nat, b: nat)
    requires d < b
    ensures (n * b + d) / b == n && (n * b + d) % b == d
  {
    var x := n * b + d;
    var q := x / b;
    assert x == q * b + x % b;
    StepApart(n, q, b);
    StepApart(q, n, b);
  }

  /** The most significant digit first. */
  lemma {:induction false} ValueFront(s: seq<nat>, b: nat)
    requires s != []
    ensures Value(s, b) == s[0] * Pow(b, |s| - 1) + Value(s[1..], b)
  {
    var k := |s| - 1;
    if k > 0 {
      var t := s[1..];
      ValueFront(s[..k], b);
      assert s[..k][1..] == t[..k - 1] && t[k - 1] == s[k];
      Shift(s[0], Pow(b, k - 1), Value(t[..k - 1], b), b);
    }
  }

  lemma Shift(d: nat, p: nat, v: nat, b: nat)
    ensures (d * p + v) * b == d * (b * p) + v * b
  {
    assert (d * p + v) * b == d * p * b + v * b;
    assert d * p * b == d * (b * p);
  }

  lemma ValueLow(s: seq<nat>, b: nat)
    requires s != []
    ensures Value(s, b) >= s[0] * Pow(b, |s| - 1)
  {
    ValueFront(s, b);
  }

  lemma {:induction false} ValueBelow(s: seq<nat>, b: nat)
    requires Below(s, b)
    ensures Value(s, b) < Pow(b, |s|)
  {
    if s != [] {
      var k := |s| - 1;
      ValueBelow(s[..k], b);
      TimesMonotone(Value(s[..k], b) + 1, Pow(b, k), b, b);
      assert (Value(s[..k], b) + 1) * b == Value(s[..k], b) * b + b;
    }
  }

  lemma {:induction false} ValueZeros(s: seq<nat>, b: nat)
    requires forall i :: 0 <= i < |s| ==> s[i] == 0
    ensures Value(s, b) == 0
  {
    if s != [] { ValueZeros(s[..|s| - 1], b); }
  }

  /** A prefix of zeros does not count. */
  lemma {:induction false} ValueSkip(s: seq<nat>, b: nat, z: nat)
    requires z <= |s| && forall i :: 0 <= i < z ==> s[i] == 0
    ensures Value(s[z..], b) == Value(s, b)
  {
    if z == 0 {
      assert s[0..] == s;
    } else {
      ValueFront(s, b);
      assert 0 * Pow(b, |s| - 1) == 0;
      ValueSkip(s[1..], b, z - 1);
      assert s[1..][z - 1..] == s[z..];
    }
  }

  /** How many digits a number takes. */
  lemma DigitsLength(n: nat, b: nat, k: nat)
    requires b >= 2
    ensures |Digits(n, b)| <= k <==> n < Pow(b, k)
  {
    var d := Digits(n, b);
    DigitsDenote(n, b);
    if n == 0 {
      PowPositive(b, k);
    } else {
      ValueBelow(d, b);
      if |d| <= k { PowMonotone(b, |d|, k); }
      else {
        ValueLow(d, b);
        PowMonotone(b, k, |d| - 1);
        Times(d[0], Pow(b, |d| - 1));
      }
    }
  }

  /** Digits of the right number and the right count are the digits. */
  lemma DigitsAre(s: seq<nat>, b: nat, n: nat)
    requires b >= 2 && Below(s, b) && Value(s, b) == n && |s| == |Digits(n, b)|
    ensures s == Digits(n, b)
  {
    if s != [] {
      if s[0] == 0 {
        ValueFront(s, b);
        assert 0 * Pow(b, |s| - 1) == 0;
        ValueBelow(s[1..], b);
        DigitsLength(n, b, |s| - 1);
      }
      DigitsUnique(s, b);
    }
  }

  lemma {:induction false} PrefixSmaller(x: seq<nat>, k: nat, b: nat)
    requires b >= 1 && k <= |x|
    ensures Value(x[..k], b) <= Value(x, b)
  {
    if k == |x| {
      assert x[..k] == x;
    } else {
      var t := x[..|x| - 1];
      PrefixSmaller(t, k, b);
      assert t[..k] == x[..k];
      Times(b, Value(t, b));
    }
  }
}
