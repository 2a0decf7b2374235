/** What a host has on the wire in each state of a negotiation, in literal bytes, and what a peer makes of a listing. */
module Answers {
  import opened Bytes
  import opened Negotiation
  import Frame
  import Varint

  // -------------------------------------------------------------------------- literals

  function Code(c: char): byte { if c as int < 128 then c as int else 0 }

  function Ascii(t: string): (s: seq<byte>)
    ensures |s| == |t| && forall i :: 0 <= i < |t| ==> s[i] == Code(t[i])
  {
    seq(|t|, i requires 0 <= i < |t| => Code(t[i]))
  }

  lemma Words()
    ensures MS == Ascii("/multistream/1.0.0") && NA == Ascii("na") && LS == Ascii("ls")
  {
  }

  /** A message is its length with the newline, the payload, and the newline; the length takes one or two bytes. */
  lemma OnWire(p: Frame.Payload)
    ensures |p| <= 1023 && Frame.Encode(p) ==
      (if |p| < 127 then [|p| + 1] else [(|p| + 1) % 128 + 128, (|p| + 1) / 128]) + p + [0x0A]
  {
    var n := |p| + 1;
    if n >= 128 { assert Varint.Encode(n / 128) == [n / 128]; }
  }

  /** And that is all that is read as one: the length is from 1 to 1024, and the last byte is a newline. */
  lemma Accepted(s: seq<byte>)
    ensures Frame.Decode(s).Ok? <==>
      var n := Varint.Decode(s);
      n.Ok? && 1 <= n.value <= 1024 && n.read + n.value <= |s| && s[n.read + n.value - 1] == 0x0A
    ensures Frame.Decode(s) == Frame.TooLarge <==> Varint.Decode(s).Ok? && Varint.Decode(s).value > 1024
  {
    hide Varint.Decode;
    if Varint.Decode(s).Ok? { Varint.Canonical(s); }
  }

  lemma WordFrames()
    ensures Frame.Encode(MS) == [0x13] + Ascii("/multistream/1.0.0\n")
    ensures Frame.Encode(NA) == [0x03, 0x6E, 0x61, 0x0A] && Frame.Encode(LS) == [0x03, 0x6C, 0x73, 0x0A]
  {
    hide Frame.Encode;
    Words();
    OnWire(MS);
    OnWire(NA);
    OnWire(LS);
  }

  // ----------------------------------------------------------------------- the listing

  datatype Listed = Listed(ids: seq<seq<byte>>) | Broken(error: Frame.Result) | TooLong

  /** libp2p_multistream_select_ls_response_payload_decode, with a visitor that takes every id */
  function DecodeListing(s: seq<byte>): Listed {
    if |s| > Frame.MAX_PAYLOAD then TooLong else SplitIds(s)
  }

  function Ahead(before: seq<seq<byte>>, r: Listed): Listed {
    if r.Listed? then Listed(before + r.ids) else r
  }

  function SplitIds(s: seq<byte>): Listed
    decreases |s|
  {
    if s == [] then Listed([])
    else
      var f := Frame.Decode(s);
      if !f.Ok? then Broken(f) else Ahead([f.payload], SplitIds(s[f.read..]))
  }

  /** The payload lists every registered id, in order, and nothing else. */
  lemma {:induction false} ListingReads(registry: seq<Id>)
    ensures SplitIds(LsPayload(registry)) == Listed(registry)
    decreases |registry|
  {
    hide Frame.Encode, Frame.Decode;
    if registry != [] {
      var f, rest := Frame.Encode(registry[0]), LsPayload(registry[1..]);
      assert LsPayload(registry) == f + rest;
      Frame.RoundTrip(registry[0], rest);
      ListingReads(registry[1..]);
      assert (f + rest)[|f|..] == rest;
      assert registry == [registry[0]] + registry[1..];
    }
  }

  /** A payload that splits into ids is the listing of just those ids. */
  lemma {:induction false} ListingCanonical(s: seq<byte>)
    requires SplitIds(s).Listed?
    ensures forall i :: 0 <= i < |SplitIds(s).ids| ==> |SplitIds(s).ids[i]| <= Frame.MAX_PAYLOAD
    ensures Frame.Encodes(SplitIds(s).ids) == s
    decreases |s|
  {
    hide Frame.Encode, Frame.Decode;
    if s != [] {
      var p, n := Frame.Decode(s).payload, Frame.Decode(s).read;
      Frame.Canonical(s);
      ListingCanonical(s[n..]);
      var ids := SplitIds(s[n..]).ids;
      assert ([p] + ids)[1..] == ids;
      assert s == s[..n] + s[n..];
    }
  }

  lemma SplitStep(s: seq<byte>, before: seq<seq<byte>>)
    requires s != []
    ensures
      var f := Frame.Decode(s);
      Ahead(before, SplitIds(s)) == if f.Ok? then Ahead(before + [f.payload], SplitIds(s[f.read..])) else Broken(f)
  {
    hide Frame.Decode;
    if Frame.Decode(s).Ok? {
      var p, t := Frame.Decode(s).payload, SplitIds(s[Frame.Decode(s).read..]);
      if t.Listed? { assert before + ([p] + t.ids) == before + [p] + t.ids; }
    }
  }

  /** The decoding loop: frame after frame, up to the end or to the first that cannot be read. */
  method ReadListing(s: seq<byte>) returns (r: Listed)
    ensures r == DecodeListing(s)
  {
    hide Frame.Decode, SplitIds;
    if |s| > Frame.MAX_PAYLOAD { return TooLong; }
    var offset, ids: seq<seq<byte>> := 0, [];
    Nothing(s);
    while offset < |s|
      invariant 0 <= offset <= |s| && Ahead(ids, SplitIds(s[offset..])) == SplitIds(s)
    {
      var t := s[offset..];
      SplitStep(t, ids);
      var f := Frame.Decode(t);
      if !f.Ok? { return Broken(f); }
      assert t[f.read..] == s[offset + f.read..];
      offset, ids := offset + f.read, ids + [f.payload];
    }
    assert s[offset..] == [];
    NothingMore(ids);
    r := Listed(ids);
  }

  lemma Nothing(s: seq<byte>)
    ensures s[0..] == s && Ahead([], SplitIds(s)) == SplitIds(s)
  {
    if SplitIds(s).Listed? { assert [] + SplitIds(s).ids == SplitIds(s).ids; }
  }

  lemma NothingMore(ids: seq<seq<byte>>)
    ensures Ahead(ids, SplitIds([])) == Listed(ids)
  {
    assert ids + [] == ids;
  }

  // --------------------------------------------------------- what is pending in each state

  /** The frame is the listing of the registry, as its reader sees it. */
  predicate ListsAll(registry: seq<Id>, frame: seq<byte>) {
    var f := Frame.Decode(frame);
    f.Ok? && f.read == |frame| && DecodeListing(f.payload) == Listed(registry)
  }

  function Opening(): seq<byte> { [0x13] + Ascii("/multistream/1.0.0\n") }

  /**
    What a record has pending: in each state that sends, the one message that belongs to it. A side that only reads
    has nothing pending, and a responder has no protocol before it has accepted one.
  */
  predicate Says(registry: seq<Id>, s: Stream) {
    match s.neg
    case OutSendMs => s.outbound && s.protocol.Some? && (s.outFrame == [] || s.outFrame == Opening())
    case OutSendProtocol =>
      s.outbound && s.protocol.Some? && (s.outFrame == [] || s.outFrame == Frame.Encode(s.protocol.value))
    case OutReadMs => s.outbound && s.protocol.Some? && s.outFrame == []
    case OutReadProtocol => s.outbound && s.protocol.Some? && s.outFrame == []
    case InReadMs => !s.outbound && s.protocol.None? && s.outFrame == []
    case InReadProtocol => !s.outbound && s.protocol.None? && s.outFrame == []
    case InSendProtocol =>
      !s.outbound && s.outFrame == if s.protocol.Some? then Frame.Encode(s.protocol.value) else Opening()
    case InSendNa => !s.outbound && s.protocol.None? && s.outFrame == [0x03, 0x6E, 0x61, 0x0A]
    case InSendLs => !s.outbound && s.protocol.None? && ListsAll(registry, s.outFrame)
    case _ => true
  }

  /** And all of it is still to be sent, or its rest. */
  predicate Pends(s: Stream) {
    Negotiating(s) && s.outFrame != [] ==> s.outPos < |s.outFrame|
  }

  predicate Speaks(registry: seq<Id>, s: Stream) { s.Valid() && Says(registry, s) && Pends(s) }

  lemma FlushKeeps(s: Stream, w: WriteAnswer, next: NegState)
    requires s.Valid() && s.outPos < |s.outFrame|
    ensures
      var o := FlushTo(s, w, next);
      && o.stream.protocol == s.protocol && o.stream.outbound == s.outbound
      && ((o.stream.neg == next && o.stream.outFrame == [])
          || (o.stream.neg == s.neg && o.stream.outFrame == s.outFrame && o.stream.outPos < |o.stream.outFrame|))
    ensures
      var o := SendPrepared(s, w);
      && o.stream.protocol == s.protocol && o.stream.outbound == s.outbound && o.stream.neg == s.neg
      && ((o.stream.outFrame == [] && o.status == Continue)
          || (o.stream.outFrame == s.outFrame && o.stream.outPos < |o.stream.outFrame|))
  {
  }

  lemma FrameSays(registry: seq<Id>, s: Stream, p: Frame.Payload, w: WriteAnswer, next: NegState)
    requires Speaks(registry, s) && (s.neg == OutSendMs || s.neg == OutSendProtocol)
    requires p == if s.neg == OutSendMs then MS else s.protocol.value
    requires next == OutSendProtocol || next == OutReadMs || next == OutReadProtocol
    ensures Speaks(registry, SendFrame(s, p, w, next).stream)
  {
    hide FlushTo, Frame.Encode, ListsAll;
    WordFrames();
    FlushKeeps(if s.outFrame == [] then Prepare(s, p) else s, w, next);
  }

  lemma HeardSays(registry: seq<Id>, s: Stream, o: Out, onOpen: bool)
    requires Speaks(registry, s) && (s.neg == OutReadMs || s.neg == OutReadProtocol)
    requires o.stream.Valid() && o.message.Some? && o.stream == s.(inFrame := o.stream.inFrame)
    ensures Speaks(registry, HearMs(o).stream) && Speaks(registry, HearProtocol(s, o, onOpen).stream)
  {
    hide ListsAll, Frame.Encode;
  }

  lemma OutSpeaks(registry: seq<Id>, s: Stream, io: Io)
    requires Speaks(registry, s) && Obeys(s, io.read) && Negotiating(s) && s.outbound
    ensures Speaks(registry, OutboundStep(s, io).stream)
  {
    hide ReadMessage, SendFrame, HearMs, HearProtocol, Consumed, ListsAll, Frame.Encode, Opening;
    if s.neg == OutSendMs { FrameSays(registry, s, MS, io.write, OutSendProtocol); }
    if s.neg == OutSendProtocol {
      FrameSays(registry, s, s.protocol.value, io.write, if s.ready then OutReadProtocol else OutReadMs);
    }
    var o := ReadMessage(s, io.read);
    if o.message.Some? && (s.neg == OutReadMs || s.neg == OutReadProtocol) { HeardSays(registry, s, o, io.onOpen); }
  }

  /** The frame of a listing lists the registry. */
  lemma ListingFrame(registry: seq<Id>)
    requires |LsPayload(registry)| <= Frame.MAX_PAYLOAD
    ensures ListsAll(registry, Frame.Encode(LsPayload(registry)))
  {
    hide Frame.Decode, Frame.Encode, LsPayload, SplitIds;
    ListingReads(registry);
    var f := Frame.Encode(LsPayload(registry));
    Frame.RoundTrip(LsPayload(registry), []);
    assert f + [] == f;
  }

  lemma JudgedSays(registry: seq<Id>, s: Stream, o: Out, request: Frame.Payload)
    requires Speaks(registry, s) && (s.neg == InReadMs || s.neg == InReadProtocol)
    requires o.stream.Valid() && o.stream == s.(inFrame := o.stream.inFrame)
    ensures Speaks(registry, Judge(registry, o, request).stream)
    ensures Speaks(registry, Answer(o, MS, InSendProtocol).stream)
  {
    hide Frame.Encode, ListsAll, LsPayload;
    WordFrames();
    if |LsPayload(registry)| <= Frame.MAX_PAYLOAD { ListingFrame(registry); }
  }

  lemma InSpeaks(registry: seq<Id>, s: Stream, io: Io)
    requires Speaks(registry, s) && Obeys(s, io.read) && Negotiating(s) && !s.outbound
    ensures Speaks(registry, Finish(InboundStep(registry, s, io)).stream)
  {
    hide ReadMessage, FlushTo, SendPrepared, Judge, Answer, Consumed, Opening, ListsAll, Frame.Encode;
    if Replying(s.neg) { SomethingToSay(registry, s); }
    if s.outFrame != [] { FlushKeeps(s, io.write, InReadProtocol); }
    var o := ReadMessage(s, io.read);
    if o.message.Some? && (s.neg == InReadMs || s.neg == InReadProtocol) {
      JudgedSays(registry, s, o, o.message.value);
    }
  }

  lemma SomethingToSay(registry: seq<Id>, s: Stream)
    requires Says(registry, s) && Replying(s.neg)
    ensures s.outFrame != []
  {
    hide Varint.Decode;
    if s.neg == InSendProtocol && s.protocol.Some? { Frame.EncodedSize(s.protocol.value); }
  }

  lemma StepSpeaks(registry: seq<Id>, s: Stream, io: Io)
    requires Speaks(registry, s) && Obeys(s, io.read) && Negotiating(s)
    ensures Speaks(registry, Step(registry, s, io).stream)
  {
    hide OutboundStep, InboundStep, Consumed, ListsAll, Opening, Frame.Encode;
    if s.outbound { OutSpeaks(registry, s, io); } else { InSpeaks(registry, s, io); }
  }

  lemma {:induction false} AfterSpeaks(registry: seq<Id>, s: Stream, ios: seq<Io>)
    requires Speaks(registry, s) && After(registry, s, ios).Some?
    ensures Speaks(registry, After(registry, s, ios).value)
    decreases |ios|
  {
    hide Step, Says, Pends;
    if ios != [] {
      var k := |ios| - 1;
      AfterSpeaks(registry, s, ios[..k]);
      StepSpeaks(registry, After(registry, s, ios[..k]).value, ios[k]);
    }
  }

  /**
    In every negotiation, against any peer, what a host has on the wire is the message of its state: the opening, the
    id it proposes or has accepted, the refusal, or the listing of all its protocols.
  */
  lemma ReachedSpeaks(registry: seq<Id>, t: Stream)
    requires Reached(registry, t)
    ensures Speaks(registry, t)
  {
    hide After, Says, Pends;
    var s, ios :| Begins(s) && s.Valid() && After(registry, s, ios) == Some(t);
    assert Speaks(registry, s) by { BeginsSilent(registry, s); }
    AfterSpeaks(registry, s, ios);
  }

  lemma BeginsSilent(registry: seq<Id>, s: Stream)
    requires Begins(s)
    ensures Speaks(registry, s)
  {
  }
}
