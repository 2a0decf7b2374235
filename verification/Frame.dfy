/** multistream-select messages: varint(length) ++ payload ++ newline, and incremental reading of them. */
module Frame {
  import opened Bytes
  import Varint

  const MAX_MESSAGE: nat := 1024
  const MAX_PAYLOAD: nat := MAX_MESSAGE - 1
  const MAX_ENCODED: nat := MAX_MESSAGE + 2
  const NEWLINE: byte := 10

  type Payload = p: seq<byte> | |p| <= MAX_PAYLOAD

  datatype Result =
    | Ok(payload: seq<byte>, read: nat)
    | Truncated
    | MalformedVarint
    | TooLarge
    | MissingNewline

  function Encode(p: Payload): (s: seq<byte>)
    ensures |s| == Varint.Size(|p| + 1) + |p| + 1
  {
    Varint.Encode(|p| + 1) + p + [NEWLINE]
  }

  function Decode(s: seq<byte>): (r: Result)
    ensures r.Ok? ==> 0 < r.read <= |s|
  {
    match Varint.Decode(s)
    case Truncated => Truncated
    case Overflow => MalformedVarint
    case NonMinimal => MalformedVarint
    case Ok(length, prefix) =>
      if length > MAX_MESSAGE then TooLarge
      else if length == 0 then MissingNewline
      else if |s| < prefix + length then Truncated
      else if s[prefix + length - 1] != NEWLINE then MissingNewline
      else
        Varint.Canonical(s);
        Ok(s[prefix..prefix + length - 1], prefix + length)
  }

  lemma PrefixSize(length: nat)
    requires length <= MAX_MESSAGE
    ensures 1 <= Varint.Size(length) <= 2
  {
    assert Pow(128, 2) == 128 * (128 * Pow(128, 0));
    Varint.SizeBound(length, 2);
  }

  lemma EncodedSize(p: Payload)
    ensures 2 <= |Encode(p)| <= MAX_ENCODED
  {
    PrefixSize(|p| + 1);
  }

  /** Decoding inverts encoding, whatever follows the frame. */
  lemma RoundTrip(p: Payload, rest: seq<byte>)
    ensures Decode(Encode(p) + rest) == Ok(p, |Encode(p)|)
  {
    var s := Encode(p) + rest;
    var head := Varint.Encode(|p| + 1);
    assert s == head + (p + [NEWLINE] + rest);
    Varint.RoundTrip(|p| + 1, p + [NEWLINE] + rest);
    assert s[|head|..|head| + |p|] == p;
  }

  /** An accepted input starts with the one frame of the payload it yields. */
  lemma Canonical(s: seq<byte>)
    requires Decode(s).Ok?
    ensures
      var r := Decode(s);
      |r.payload| <= MAX_PAYLOAD && s[..r.read] == Encode(r.payload)
  {
    hide Varint.Decode, Varint.Encode;
    Varint.Canonical(s);
    var v := Varint.Decode(s);
    var r := Decode(s);
    LastByte(s, v.read, r.read);
  }

  lemma LastByte(s: seq<byte>, a: nat, n: nat)
    requires a < n <= |s|
    ensures s[..n] == s[..a] + s[a..n - 1] + [s[n - 1]]
  {
  }

  /** Every proper prefix of a frame asks for more input. */
  lemma ProperPrefixTruncated(p: Payload, k: nat)
    requires k < |Encode(p)|
    ensures Decode(Encode(p)[..k]) == Truncated
  {
    var head := Varint.Encode(|p| + 1);
    if k < |head| {
      assert Encode(p)[..k] == head[..k];
      Varint.ProperPrefixTruncated(|p| + 1, k);
    } else {
      var s := Encode(p)[..k];
      assert s == head + s[|head|..];
      Varint.RoundTrip(|p| + 1, s[|head|..]);
    }
  }

  /** A verdict other than "truncated" is unchanged by appending bytes. */
  lemma Stable(s: seq<byte>, t: seq<byte>)
    requires Decode(s) != Truncated
    ensures Decode(s + t) == Decode(s)
  {
    Varint.Stable(s, t);
    var v := Varint.Decode(s);
    if v.Ok? && 0 < v.value <= MAX_MESSAGE {
      assert (s + t)[v.read + v.value - 1] == s[v.read + v.value - 1];
      Varint.Canonical(s);
      assert (s + t)[v.read..v.read + v.value - 1] == s[v.read..v.read + v.value - 1];
    }
  }

  /** With a full 1026-byte buffer the decoder never asks for more. */
  lemma FullBufferDecides(s: seq<byte>)
    requires |s| >= MAX_ENCODED
    ensures Decode(s) != Truncated
  {
    Varint.NineBytesDecide(s);
    if Varint.Decode(s).Ok? && Varint.Decode(s).value <= MAX_MESSAGE {
      Varint.Canonical(s);
      PrefixSize(Varint.Decode(s).value);
    }
  }

  // ------------------------------------------------- streams of frames

  function Encodes(ms: seq<Payload>): seq<byte> {
    if ms == [] then [] else Encode(ms[0]) + Encodes(ms[1..])
  }

  lemma {:induction false} EncodesAppend(ms: seq<Payload>, m: Payload)
    ensures Encodes(ms + [m]) == Encodes(ms) + Encode(m)
  {
    if ms == [] {
      assert ms + [m] == [m] && [m][1..] == [];
      assert Encodes([m]) == Encode(m) + Encodes([]) == Encode(m);
    } else {
      assert (ms + [m])[1..] == ms[1..] + [m];
      EncodesAppend(ms[1..], m);
    }
  }

  lemma {:induction false} EncodesConcat(a: seq<Payload>, b: seq<Payload>)
    ensures Encodes(a + b) == Encodes(a) + Encodes(b)
    decreases |a|
  {
    hide Encode;
    if a == [] {
      assert a + b == b;
    } else {
      assert (a + b)[1..] == a[1..] + b;
      EncodesConcat(a[1..], b);
    }
  }

  /** What a reader that holds `have`, a part of the stream of frames `ms` followed by `tail`, sees. */
  lemma DecodeStream(have: seq<byte>, more: seq<byte>, ms: seq<Payload>, tail: seq<byte>)
    requires have + more == Encodes(ms) + tail && ms != []
    ensures |have| < |Encode(ms[0])| ==> Decode(have) == Truncated
    ensures |have| >= |Encode(ms[0])| ==>
      && Decode(have) == Ok(ms[0], |Encode(ms[0])|)
      && have[|Encode(ms[0])|..] + more == Encodes(ms[1..]) + tail
  {
    var f := Encode(ms[0]);
    Cut(have, more, f, Encodes(ms[1..]) + tail) by {
      assert f + (Encodes(ms[1..]) + tail) == Encodes(ms) + tail;
    }
    if |have| < |f| {
      ProperPrefixTruncated(ms[0], |have|);
    } else {
      RoundTrip(ms[0], have[|f|..]);
    }
  }

  /** Where the front piece of one split of a byte string ends inside another split of it. */
  lemma Cut(have: seq<byte>, more: seq<byte>, front: seq<byte>, back: seq<byte>)
    requires have + more == front + back
    ensures |have| < |front| ==> have == front[..|have|]
    ensures |have| >= |front| ==> have == front + have[|front|..] && have[|front|..] + more == back
  {
    var all := have + more;
    if |have| < |front| {
      assert have == all[..|have|];
    } else {
      assert front == all[..|front|] && back == all[|front|..];
    }
  }

  /** The messages a byte string holds, what is left after them, and whether what is left is malformed. */
  datatype Parsed = Parsed(messages: seq<seq<byte>>, rest: seq<byte>, failed: bool)

  function Parse(s: seq<byte>): (r: Parsed)
    decreases |s|
  {
    match Decode(s)
    case Ok(p, n) => var t := Parse(s[n..]); Parsed([p] + t.messages, t.rest, t.failed)
    case Truncated => Parsed([], s, false)
    case _ => Parsed([], s, true)
  }

  /** Reading `a` and then `b` yields the messages of `a ++ b`: chunk boundaries leave no trace. */
  lemma {:induction false} ChunkIndependent(a: seq<byte>, b: seq<byte>)
    ensures !Parse(a).failed ==>
      && Parse(a + b).messages == Parse(a).messages + Parse(Parse(a).rest + b).messages
      && Parse(a + b).rest == Parse(Parse(a).rest + b).rest
      && Parse(a + b).failed == Parse(Parse(a).rest + b).failed
    ensures Parse(a).failed ==> Parse(a + b).messages == Parse(a).messages && Parse(a + b).failed
    decreases |a|
  {
    hide Decode;
    match Decode(a)
    case Ok(p, n) =>
      Stable(a, b);
      assert (a + b)[n..] == a[n..] + b;
      ChunkIndependent(a[n..], b);
      var x, y := Parse(a[n..]).messages, Parse(Parse(a[n..]).rest + b).messages;
      assert [p] + (x + y) == ([p] + x) + y;
    case Truncated =>
      assert [] + Parse(a + b).messages == Parse(a + b).messages;
    case _ => Stable(a, b);
  }

  /** Delivering a stream in any chunks, parsing after each: the fold a polling reader performs. */
  function ParseChunks(acc: Parsed, chunks: seq<seq<byte>>): Parsed
    decreases |chunks|
  {
    if chunks == [] || acc.failed then acc
    else
      var r := Parse(acc.rest + chunks[0]);
      ParseChunks(Parsed(acc.messages + r.messages, r.rest, r.failed), chunks[1..])
  }

  function Concat(chunks: seq<seq<byte>>): seq<byte> {
    if chunks == [] then [] else chunks[0] + Concat(chunks[1..])
  }

  /** The messages a polling reader obtains depend on the bytes alone, not on how they are cut. */
  lemma {:induction false} ChunkingIrrelevant(seen: seq<byte>, chunks: seq<seq<byte>>)
    ensures
      var all := Parse(seen + Concat(chunks));
      var got := ParseChunks(Parse(seen), chunks);
      got.messages == all.messages && got.failed == all.failed && (!got.failed ==> got.rest == all.rest)
    decreases |chunks|
  {
    hide Decode;
    if chunks == [] {
      assert seen + Concat(chunks) == seen;
    } else {
      var next := seen + chunks[0];
      assert seen + Concat(chunks) == next + Concat(chunks[1..]);
      if Parse(seen).failed {
        ChunkIndependent(seen, Concat(chunks));
      } else {
        FirstChunk(seen, chunks);
        ChunkingIrrelevant(next, chunks[1..]);
      }
    }
  }

  lemma FirstChunk(seen: seq<byte>, chunks: seq<seq<byte>>)
    requires chunks != [] && !Parse(seen).failed
    ensures ParseChunks(Parse(seen), chunks) == ParseChunks(Parse(seen + chunks[0]), chunks[1..])
  {
    hide Decode;
    ChunkIndependent(seen, chunks[0]);
    var r := Parse(Parse(seen).rest + chunks[0]);
    assert Parse(seen + chunks[0]) == Parsed(Parse(seen).messages + r.messages, r.rest, r.failed);
  }
}
