/** The blocking message reader: it takes exactly one frame off the stream, however the stream is cut into reads. */
module Blocking {
  import opened Bytes
  import Varint
  import Frame

  /** A stream that still has `incoming[taken..]` to deliver; the read behind that fails with the code `ending`. */
  class Source {
    const incoming: seq<byte>
    const ending: nat
    var taken: nat

    ghost predicate Valid() reads this { taken <= |incoming| }
    ghost function Left(): seq<byte> reads this requires Valid() { incoming[taken..] }

    constructor (incoming: seq<byte>, ending: nat)
      ensures Valid() && this.incoming == incoming && this.ending == ending && Left() == incoming
    {
      this.incoming, this.ending := incoming, ending;
      taken := 0;
    }

    /** multistream_select_read_exact: reads of any sizes until n bytes are there or one fails */
    method ReadExact(n: nat) returns (data: Option<seq<byte>>)
      requires Valid()
      modifies this
      ensures Valid()
      ensures if n <= |old(Left())| then data == Some(old(Left())[..n]) && Left() == old(Left())[n..] else data == None
    {
      var out: seq<byte> := [];
      ghost var all := Left();
      while |out| < n
        invariant Valid() && |out| <= n && |out| <= |all| && out == all[..|out|] && Left() == all[|out|..]
        decreases n - |out|
      {
        if taken == |incoming| { return None; }
        var most := if n - |out| < |incoming| - taken then n - |out| else |incoming| - taken;
        var offered: nat := *;
        var chunk: nat := if 1 <= offered <= most then offered else 1;
        assert taken + chunk <= |incoming|;
        ghost var k := |out|;
        assert incoming[taken..taken + chunk] == all[k..][..chunk];
        out := out + incoming[taken..taken + chunk];
        taken := taken + chunk;
        assert all[..k] + all[k..][..chunk] == all[..k + chunk];
        assert all[k..][chunk..] == all[k + chunk..];
      }
      data := Some(out);
    }
  }

  datatype Outcome =
    | Message(payload: seq<byte>)
    | Failed(error: Frame.Result)
    | StreamFailed(code: nat)
    | BufTooSmall(needed: nat)

  /** What the reader makes of a stream that breaks with `ending`, given `room` bytes for the payload. */
  function Expected(s: seq<byte>, ending: nat, room: nat): Outcome {
    match Frame.Decode(s)
    case Ok(p, _) => if |p| <= room then Message(p) else BufTooSmall(|p|)
    case Truncated => StreamFailed(ending)
    case error => Failed(error)
  }

  /** A length that decodes at last from k bytes takes all k of them. */
  lemma PrefixTakesAll(s: seq<byte>)
    requires Varint.Decode(s).Ok? && s != [] && Varint.Decode(s[..|s| - 1]) == Varint.Truncated
    ensures Varint.Decode(s).read == |s|
  {
    Varint.Canonical(s);
    var r := Varint.Decode(s);
    if r.read < |s| {
      var t := s[..|s| - 1];
      assert t == Varint.Encode(r.value) + t[r.read..];
      Varint.RoundTrip(r.value, t[r.read..]);
    }
  }

  /** The length prefix, one byte at a time, at most nine of them */
  method ReadLength(source: Source) returns (length: Option<nat>, bad: bool)
    requires source.Valid()
    modifies source
    ensures source.Valid()
    ensures
      match Varint.Decode(old(source.Left()))
      case Ok(v, n) => !bad && length == Some(v) && n <= |old(source.Left())|
        && source.Left() == old(source.Left())[n..]
      case Truncated => !bad && length == None
      case _ => bad
  {
    ghost var all := source.Left();
    var prefix: seq<byte> := [];
    assert Varint.Decode([]) == Varint.Truncated;
    while |prefix| < Varint.MAX_BYTES
      invariant source.Valid() && |prefix| <= |all| && |prefix| <= Varint.MAX_BYTES
      invariant prefix == all[..|prefix|] && source.Left() == all[|prefix|..]
      invariant Varint.Decode(prefix) == Varint.Truncated
      decreases Varint.MAX_BYTES - |prefix|
    {
      hide Varint.Decode;
      var next := source.ReadExact(1);
      if next.None? {
        assert all == prefix;
        return None, false;
      }
      ghost var k := |prefix|;
      prefix := prefix + next.value;
      assert prefix[..k] == all[..k] && prefix == all[..k + 1] && all[k..][1..] == all[k + 1..];
      var r := Varint.Decode(prefix);
      if r != Varint.Truncated {
        Varint.Stable(prefix, all[k + 1..]);
        assert prefix + all[k + 1..] == all;
        if r.Ok? { PrefixTakesAll(prefix); }
        return if r.Ok? then Some(r.value) else None, !r.Ok?;
      }
    }
    Varint.NineBytesDecide(prefix);
    assert false;
  }

  /** What stands behind a good length. */
  lemma BodyDecides(all: seq<byte>, v: nat, n: nat)
    requires Varint.Decode(all) == Varint.Ok(v, n) && n <= |all| && 0 < v <= Frame.MAX_MESSAGE
    ensures v > |all[n..]| ==> Frame.Decode(all) == Frame.Truncated
    ensures v <= |all[n..]| ==>
      var m := all[n..][..v];
      && Frame.Decode(all) == (if m[v - 1] != Frame.NEWLINE then Frame.MissingNewline else Frame.Ok(m[..v - 1], n + v))
      && all[n..][v..] == all[n + v..]
  {
    hide Varint.Decode;
    if v <= |all[n..]| {
      assert all[n..][..v] == all[n..n + v];
      assert all[n..n + v][..v - 1] == all[n..n + v - 1];
    }
  }

  lemma LengthDecides(all: seq<byte>)
    ensures
      match Varint.Decode(all)
      case Truncated => Frame.Decode(all) == Frame.Truncated
      case Ok(v, _) =>
        (v > Frame.MAX_MESSAGE ==> Frame.Decode(all) == Frame.TooLarge)
          && (v == 0 ==> Frame.Decode(all) == Frame.MissingNewline)
      case _ => Frame.Decode(all) == Frame.MalformedVarint
  {
    hide Varint.Decode;
  }

  /**
    libp2p_multistream_select_read_message. A frame whose payload does not fit the buffer is taken off the stream
    all the same.
  */
  method ReadMessage(source: Source, out: array<byte>) returns (r: Outcome)
    requires source.Valid()
    modifies source, out
    ensures source.Valid() && r == Expected(old(source.Left()), source.ending, out.Length)
    ensures r.Message? ==> out[..|r.payload|] == r.payload
    ensures r.Message? || r.BufTooSmall? ==>
      source.Left() == old(source.Left())[Frame.Decode(old(source.Left())).read..]
  {
    hide Varint.Decode, Frame.Decode;
    ghost var all := source.Left();
    LengthDecides(all);
    var length, bad := ReadLength(source);
    if bad { return Failed(Frame.MalformedVarint); }
    if length.None? { return StreamFailed(source.ending); }
    var v := length.value;
    if v > Frame.MAX_MESSAGE { return Failed(Frame.TooLarge); }
    if v == 0 { return Failed(Frame.MissingNewline); }
    BodyDecides(all, v, Varint.Decode(all).read);
    var message := source.ReadExact(v);
    if message.None? { return StreamFailed(source.ending); }
    if message.value[v - 1] != Frame.NEWLINE { return Failed(Frame.MissingNewline); }
    var p := message.value[..v - 1];
    if |p| > out.Length { return BufTooSmall(|p|); }
    forall k | 0 <= k < |p| { out[k] := p[k]; }
    r := Message(p);
  }
}
