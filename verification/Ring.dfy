/** The ring of public events: a head, a length, and positions taken modulo the capacity. */
module Ring {
  function At(head: nat, k: nat, n: nat): (p: nat)
    requires n > 0
    ensures p < n
  {
    (head + k) % n
  }

  /** Positions wrap at most once. */
  lemma WrapsOnce(x: nat, n: nat)
    requires x < 2 * n
    ensures x % n == if x < n then x else x - n
  {
    if x >= n {
      var q := x / n;
      assert x == n * q + x % n;
      assert q == 0 ==> n * q == 0;
      assert q >= 2 ==> n * q >= n * 2;
    }
  }

  /** The queued elements, oldest first. */
  function Contents<T>(slots: seq<T>, head: nat, len: nat): (q: seq<T>)
    requires len <= |slots|
    ensures |q| == len
    ensures forall k :: 0 <= k < len ==> q[k] == slots[At(head, k, |slots|)]
  {
    if len == 0 then [] else Contents(slots, head, len - 1) + [slots[At(head, len - 1, |slots|)]]
  }

  /** Two offsets below the capacity never meet. */
  lemma AtDistinct(head: nat, j: nat, k: nat, n: nat)
    requires j < k < n && head < n
    ensures At(head, j, n) != At(head, k, n)
  {
    WrapsOnce(head + j, n);
    WrapsOnce(head + k, n);
  }

  lemma {:induction false} ContentsFrame<T>(slots: seq<T>, head: nat, len: nat, x: T)
    requires len < |slots| && head < |slots|
    ensures Contents(slots[At(head, len, |slots|) := x], head, len) == Contents(slots, head, len)
  {
    var t := slots[At(head, len, |slots|) := x];
    forall k | 0 <= k < len ensures Contents(t, head, len)[k] == Contents(slots, head, len)[k] {
      AtDistinct(head, k, len, |slots|);
    }
  }

  /** Writing at head + len and lengthening appends. */
  lemma Pushed<T>(slots: seq<T>, head: nat, len: nat, x: T)
    requires len < |slots| && head < |slots|
    ensures Contents(slots[At(head, len, |slots|) := x], head, len + 1) == Contents(slots, head, len) + [x]
  {
    ContentsFrame(slots, head, len, x);
  }

  lemma Shifted(head: nat, k: nat, n: nat)
    requires head < n && k + 1 < n
    ensures At((head + 1) % n, k, n) == At(head, k + 1, n)
  {
    WrapsOnce(head + 1, n);
    WrapsOnce((head + 1) % n + k, n);
    WrapsOnce(head + (k + 1), n);
  }

  lemma Oldest<T>(slots: seq<T>, head: nat, len: nat)
    requires 0 < len <= |slots| && head < |slots|
    ensures Contents(slots, head, len)[0] == slots[head]
  {
    WrapsOnce(head + 0, |slots|);
  }

  /** Advancing the head and shortening drops the oldest. */
  lemma Popped<T>(slots: seq<T>, head: nat, len: nat)
    requires 0 < len <= |slots| && head < |slots|
    ensures Contents(slots, (head + 1) % |slots|, len - 1) == Contents(slots, head, len)[1..]
  {
    var n := |slots|;
    forall k | 0 <= k < len - 1
      ensures Contents(slots, (head + 1) % n, len - 1)[k] == Contents(slots, head, len)[1..][k]
    {
      Shifted(head, k, n);
    }
  }
}
