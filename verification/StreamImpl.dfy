/** Framing into caller buffers, and the host stream with its fixed in-place buffers, against `Negotiation`. */
module StreamImpl {
  import opened Bytes
  import opened Negotiation
  import Frame
  import Session
  import Varint

  /** memcpy into dst[at..]. */
  method Copy(src: seq<byte>, dst: array<byte>, at: nat)
    requires at + |src| <= dst.Length
    modifies dst
    ensures dst[..at] == old(dst[..at]) && dst[at..at + |src|] == src && dst[at + |src|..] == old(dst[at + |src|..])
  {
    forall k | 0 <= k < |src| {
      dst[at + k] := src[k];
    }
  }

  datatype EncodeStatus = Encoded | MessageTooLarge | OutTooSmall

  /** message_encode: reports the required size, writes the frame at `at` when it fits behind it. */
  method EncodeMessage(p: seq<byte>, out: array<byte>, at: nat) returns (status: EncodeStatus, written: nat)
    requires at <= out.Length
    modifies out
    ensures status == (if |p| > Frame.MAX_PAYLOAD then MessageTooLarge
                       else if out.Length - at < |Frame.Encode(p)| then OutTooSmall else Encoded)
    ensures status != MessageTooLarge ==> written == |Frame.Encode(p)|
    ensures status == Encoded ==> out[..at] == old(out[..at]) && out[at..at + written] == Frame.Encode(p)
    ensures status == Encoded ==> out[at + written..] == old(out[at + written..])
    ensures status != Encoded ==> out[..] == old(out[..])
  {
    hide Varint.Encode;
    written := 0;
    if |p| > Frame.MAX_PAYLOAD {
      return MessageTooLarge, 0;
    }
    var prefix := Varint.Measure(|p| + 1);
    written := prefix + |p| + 1;
    if out.Length - at < written {
      return OutTooSmall, written;
    }
    status := Encoded;
    ghost var before, after := out[..at], out[at + written..];
    var s, n := Varint.EncodeInto(|p| + 1, out, at);
    ghost var head := Varint.Encode(|p| + 1);
    var body := p + [Frame.NEWLINE];
    Placed(out[..], before, head, after);
    Copy(body, out, at + prefix);
    Joined(out[..], before, head, body, after);
    assert head + body == head + p + [Frame.NEWLINE];
  }

  lemma Placed(out: seq<byte>, before: seq<byte>, head: seq<byte>, after: seq<byte>)
    requires |before| + |head| <= |out| - |after| && out[..|before| + |head|] == before + head
    requires out[|out| - |after|..] == after
    ensures out[..|before|] == before && out[|before|..|before| + |head|] == head
  {
    assert out[..|before|] == out[..|before| + |head|][..|before|];
    assert out[|before|..|before| + |head|] == out[..|before| + |head|][|before|..];
  }

  lemma Joined(out: seq<byte>, before: seq<byte>, head: seq<byte>, body: seq<byte>, after: seq<byte>)
    requires |out| == |before| + |head| + |body| + |after|
    requires out[..|before| + |head|] == before + head
    requires out[|before| + |head|..|before| + |head| + |body|] == body
    requires out[|before| + |head| + |body|..] == after
    ensures out[..|before|] == before && out[|before|..|before| + |head| + |body|] == head + body
  {
    var n := |before| + |head|;
    assert out[..|before|] == out[..n][..|before|];
    assert out[|before|..n + |body|] == out[..n][|before|..] + out[n..n + |body|];
  }

  // ---------------------------------------------------------------------- the "ls" payload

  lemma ListingMore(registry: seq<Id>, i: nat)
    requires i < |registry|
    ensures LsPayload(registry[..i + 1]) == LsPayload(registry[..i]) + Frame.Encode(registry[i])
    ensures |LsPayload(registry[..i + 1])| <= |LsPayload(registry)|
  {
    hide Frame.Encode, Frame.Encodes;
    assert registry[..i + 1] == registry[..i] + [registry[i]];
    Frame.EncodesAppend(registry[..i], registry[i]);
    assert registry == registry[..i + 1] + registry[i + 1..];
    Frame.EncodesConcat(registry[..i + 1], registry[i + 1..]);
  }

  /** ls_response_payload_size: the sizes add up, as long as they fit one payload. */
  method MeasureListing(registry: seq<Id>) returns (size: Option<nat>)
    ensures size == if |LsPayload(registry)| <= Frame.MAX_PAYLOAD then Some(|LsPayload(registry)|) else None
  {
    hide Frame.Encode, LsPayload;
    var required: nat, i: nat := 0, 0;
    Empty(registry);
    while i < |registry|
      invariant i <= |registry| && required == |LsPayload(registry[..i])| <= Frame.MAX_PAYLOAD
    {
      var prefix := Varint.Measure(|registry[i]| + 1);
      var n := prefix + |registry[i]| + 1;
      ListingMore(registry, i);
      if n > Frame.MAX_PAYLOAD - required { return None; }
      required, i := required + n, i + 1;
    }
    assert registry[..i] == registry;
    size := Some(required);
  }

  lemma Empty(registry: seq<Id>)
    ensures LsPayload(registry[..0]) == []
  {
  }

  /** ls_response_payload_encode: every id in its own frame, one behind the other. */
  method EncodeListing(registry: seq<Id>, out: array<byte>) returns (size: Option<nat>)
    requires out.Length == Frame.MAX_PAYLOAD
    modifies out
    ensures size == if |LsPayload(registry)| <= Frame.MAX_PAYLOAD then Some(|LsPayload(registry)|) else None
    ensures size.Some? ==> out[..size.value] == LsPayload(registry)
  {
    hide Frame.Encode, LsPayload;
    size := MeasureListing(registry);
    if size.None? { return; }
    var offset: nat, i: nat := 0, 0;
    Empty(registry);
    while i < |registry|
      invariant i <= |registry| && offset <= out.Length && out[..offset] == LsPayload(registry[..i])
    {
      ListingMore(registry, i);
      assert |out[..offset]| == offset;
      ghost var before := out[..offset];
      var status, n := EncodeMessage(registry[i], out, offset);
      assert status == Encoded;
      assert out[..offset + n] == before + out[offset..offset + n];
      offset, i := offset + n, i + 1;
    }
    assert registry[..i] == registry;
  }

  datatype DecodeStatus = Decoded(result: Frame.Result) | PayloadTooLong(length: nat, read: nat)

  /** message_decode of the first `len` bytes: copies the payload out when there is room for it. */
  method DecodeMessage(buf: array<byte>, len: nat, out: array<byte>) returns (status: DecodeStatus)
    requires len <= buf.Length && buf != out
    modifies out
    ensures
      var r := Frame.Decode(buf[..len]);
      if r.Ok? && |r.payload| > out.Length then status == PayloadTooLong(|r.payload|, r.read)
      else status == Decoded(r) && (r.Ok? ==> out[..|r.payload|] == r.payload)
  {
    hide Varint.Decode;
    var s := buf[..len];
    var v := Varint.DecodeLoop(s);
    match v
    case Truncated => return Decoded(Frame.Truncated);
    case Overflow => return Decoded(Frame.MalformedVarint);
    case NonMinimal => return Decoded(Frame.MalformedVarint);
    case Ok(length, prefix) =>
      if length > Frame.MAX_MESSAGE { return Decoded(Frame.TooLarge); }
      if length == 0 { return Decoded(Frame.MissingNewline); }
      if len < prefix + length { return Decoded(Frame.Truncated); }
      if buf[prefix + length - 1] != Frame.NEWLINE { return Decoded(Frame.MissingNewline); }
      var count := length - 1;
      if count > out.Length {
        return PayloadTooLong(count, prefix + length);
      }
      Copy(s[prefix..prefix + count], out, 0);
      return Decoded(Frame.Ok(s[prefix..prefix + count], prefix + length));
  }

  class HostStream {
    const outbound: bool
    var neg: NegState
    var protocol: Option<Id>
    var fallback: Option<Id>
    var ready: bool
    const inFrame: array<byte>
    var inLen: nat
    const payload: array<byte>
    var payloadLen: nat
    const outFrame: array<byte>
    var outLen: nat
    var outPos: nat

    ghost predicate Valid()
      reads this, inFrame, payload, outFrame
    {
      && inFrame.Length == outFrame.Length == Frame.MAX_ENCODED && payload.Length == Frame.MAX_PAYLOAD
      && inFrame != payload && inFrame != outFrame && payload != outFrame
      && inLen <= inFrame.Length && outPos <= outLen <= outFrame.Length && payloadLen <= payload.Length
    }

    ghost function View(): (s: Stream)
      reads this, inFrame, payload, outFrame
      requires Valid()
      ensures s.Valid()
    {
      Stream(outbound, neg, protocol, fallback, ready, inFrame[..inLen], outFrame[..outLen], outPos)
    }

    /** host_stream_alloc's zeroed record. */
    constructor (outbound: bool, protocol: Option<Id>, fallback: Option<Id>)
      ensures Valid() && fresh(inFrame) && fresh(payload) && fresh(outFrame)
      ensures View() == Stream(outbound, if outbound then OutSendMs else InReadMs, protocol, fallback, false, [], [], 0)
    {
      this.outbound := outbound;
      this.neg := if outbound then OutSendMs else InReadMs;
      this.protocol, this.fallback, this.ready := protocol, fallback, false;
      this.inFrame, this.inLen := new byte[Frame.MAX_ENCODED], 0;
      this.payload, this.payloadLen := new byte[Frame.MAX_PAYLOAD], 0;
      this.outFrame, this.outLen, this.outPos := new byte[Frame.MAX_ENCODED], 0, 0;
    }

    method PrepareMessage(p: seq<byte>) returns (ok: bool)
      requires Valid()
      modifies this`outLen, this`outPos, outFrame
      ensures Valid() && ok == (|p| <= Frame.MAX_PAYLOAD)
      ensures ok ==> View() == Prepare(old(View()), p)
    {
      var status, n := EncodeMessage(p, outFrame, 0);
      outPos := 0;
      if status == MessageTooLarge {
        outLen := 0;
        return false;
      }
      Frame.EncodedSize(p);
      outLen := n;
      return true;
    }

    method SendPending(w: WriteAnswer) returns (wrote: seq<byte>, status: Status, progress: bool)
      requires Valid()
      modifies this`outLen, this`outPos
      ensures Valid() && Out(View(), wrote, [], None, status, progress) == SendPrepared(old(View()), w)
    {
      wrote, status, progress := [], Continue, false;
      if outPos < outLen {
        match w
        case WriteWouldBlock => status := Blocked;
        case WriteError => status := Failure(ErrTransport);
        case Accepts(count) =>
          var accepted := if count < outLen - outPos then count else outLen - outPos;
          wrote := outFrame[outPos..outPos + accepted];
          outPos := outPos + accepted;
          progress := accepted != 0;
          if outPos == outLen {
            outLen, outPos := 0, 0;
          } else if accepted == 0 {
            status := Blocked;
          }
      }
    }

    /** Drops the first n buffered bytes, moving the rest to the front (memmove). */
    method Compact(n: nat)
      requires Valid() && n <= inLen
      modifies this`inLen, inFrame
      ensures Valid() && inFrame[..inLen] == old(inFrame[n..inLen])
    {
      var rest := inLen - n;
      forall k | 0 <= k < rest {
        inFrame[k] := inFrame[n + k];
      }
      inLen := rest;
    }

    /** Appends bytes read from the transport behind the buffered ones. */
    method Buffer(bytes: seq<byte>)
      requires Valid() && |bytes| <= inFrame.Length - inLen
      modifies this`inLen, inFrame
      ensures Valid() && inFrame[..inLen] == old(inFrame[..inLen]) + bytes
    {
      forall k | 0 <= k < |bytes| {
        inFrame[inLen + k] := bytes[k];
      }
      inLen := inLen + |bytes|;
    }

    /** Decodes the buffered input; on a complete frame keeps the payload and drops the frame. */
    method TakeBuffered() returns (message: Option<Frame.Payload>, status: Status)
      requires Valid()
      modifies this`inLen, this`payloadLen, inFrame, payload
      ensures Valid() && Out(View(), [], [], message, status, message.Some?) == TakeFrame(old(View()), [])
      ensures message.Some? ==> payload[..payloadLen] == message.value
    {
      ghost var s := inFrame[..inLen];
      if Frame.Decode(s).Ok? { Frame.Canonical(s); }
      hide Frame.Decode, Frame.Encode;
      var r := DecodeMessage(inFrame, inLen, payload);
      message := None;
      match r.result
      case Ok(p, n) =>
        payloadLen := |p|;
        Compact(n);
        assert inFrame[..inLen] == s[n..];
        message, status := Some(p), Continue;
      case Truncated => status := Blocked;
      case _ => status := Failure(ErrNegotiation);
    }

    method ReadOne(r: ReadAnswer)
      returns (took: seq<byte>, message: Option<Frame.Payload>, status: Status, progress: bool)
      requires Valid() && Obeys(View(), r)
      modifies this`inLen, this`payloadLen, inFrame, payload
      ensures Valid() && Out(View(), [], took, message, status, progress) == ReadMessage(old(View()), r)
    {
      hide Frame.Decode, Frame.Encode;
      took := [];
      message, status := TakeBuffered();
      progress := message.Some?;
      if status == Blocked {
        if inLen == inFrame.Length {
          status := Failure(ErrNegotiation);
        } else {
          match r
          case ReadWouldBlock =>
          case ReadError => status := Failure(ErrTransport);
          case Data(bytes, fin) =>
            Buffer(bytes);
            took := bytes;
            progress := bytes != [];
            if bytes == [] && fin {
              status := Failure(ErrNegotiation);
            } else {
              message, status := TakeBuffered();
              progress := progress || message.Some?;
            }
        }
      }
    }

    /** Prepares `p` unless a frame is pending, then writes once. */
    method SendMessage(p: Frame.Payload, w: WriteAnswer, next: NegState)
      returns (wrote: seq<byte>, status: Status, progress: bool)
      requires Valid()
      modifies this`outLen, this`outPos, this`neg, outFrame
      ensures Valid() && Out(View(), wrote, [], None, status, progress) == SendFrame(old(View()), p, w, next)
    {
      hide Frame.Encode, SendPrepared;
      if outLen == 0 {
        var ok := PrepareMessage(p);
      }
      wrote, status, progress := Flush(w, next);
    }

    method Flush(w: WriteAnswer, next: NegState) returns (wrote: seq<byte>, status: Status, progress: bool)
      requires Valid()
      modifies this`outLen, this`outPos, this`neg
      ensures Valid() && Out(View(), wrote, [], None, status, progress) == FlushTo(old(View()), w, next)
    {
      hide SendPrepared;
      wrote, status, progress := SendPending(w);
      if status == Continue && outLen == 0 {
        neg, progress := next, true;
      }
    }

    method OutStep(io: Io)
      returns (wrote: seq<byte>, took: seq<byte>, message: Option<Frame.Payload>, status: Status, progress: bool)
      requires Valid() && Obeys(View(), io.read)
      modifies this, inFrame, payload, outFrame
      ensures Valid() && Out(View(), wrote, took, message, status, progress) == OutboundStep(old(View()), io)
    {
      hide Frame.Encode, ReadMessage, SendFrame;
      wrote, took, message, status, progress := [], [], None, Continue, false;
      match neg
      case OutSendMs => wrote, status, progress := SendMessage(MS, io.write, OutSendProtocol);
      case OutSendProtocol =>
        if protocol.None? {
          status := Failure(ErrNegotiation);
        } else {
          var next := if ready then OutReadProtocol else OutReadMs;
          wrote, status, progress := SendMessage(protocol.value, io.write, next);
        }
      case OutReadMs =>
        took, message, status, progress := ReadOne(io.read);
        if message.Some? {
          if message.value == MS { ready, neg := true, OutReadProtocol; } else { status := Failure(ErrNegotiation); }
        }
      case OutReadProtocol =>
        took, message, status, progress := ReadOne(io.read);
        if message.Some? {
          if protocol.Some? && message.value == protocol.value {
            if io.onOpen { neg, status := Done, Completed; } else { status := Failure(ErrProtocol); }
          } else if message.value == NA {
            if fallback.Some? {
              protocol, fallback, neg, progress := fallback, None, OutSendProtocol, true;
            } else {
              status := Failure(ErrUnsupported);
            }
          } else {
            status := Failure(ErrNegotiation);
          }
        }
      case _ => status := Failure(ErrState);
    }

    /** List, accept or decline: the answer is prepared, and the stream bound when the id is registered. */
    method AnswerRequest(registry: seq<Id>, request: Frame.Payload, ghost o: Out) returns (status: Status)
      requires Valid() && o.stream == View() && o.status == Continue
      modifies this, payload, outFrame
      ensures Valid() && Judge(registry, o, request) == o.(stream := View(), status := status)
    {
      hide Frame.Encode, LsPayload;
      status := Continue;
      if request == LS {
        var size := EncodeListing(registry, payload);
        if size.None? {
          status := Failure(ErrNegotiation);
        } else {
          payloadLen := size.value;
          var ok := PrepareMessage(payload[..payloadLen]);
          neg := InSendLs;
        }
      } else if request in registry {
        protocol := Some(request);
        var ok := PrepareMessage(request);
        neg := InSendProtocol;
      } else {
        var ok := PrepareMessage(NA);
        neg := InSendNa;
      }
    }

    method InStep(registry: seq<Id>, io: Io)
      returns (wrote: seq<byte>, took: seq<byte>, message: Option<Frame.Payload>, status: Status, progress: bool)
      requires Valid() && Obeys(View(), io.read)
      modifies this, inFrame, payload, outFrame
      ensures Valid() && Out(View(), wrote, took, message, status, progress) == InboundStep(registry, old(View()), io)
    {
      hide Frame.Encode, ReadMessage, SendPrepared, Judge;
      wrote, took, message, status, progress := [], [], None, Continue, false;
      match neg
      case InReadMs =>
        took, message, status, progress := ReadOne(io.read);
        if message.Some? {
          if message.value == MS {
            var ok := PrepareMessage(MS);
            neg := InSendProtocol;
          } else {
            status := Failure(ErrNegotiation);
          }
        }
      case InSendProtocol =>
        if protocol.None? {
          wrote, status, progress := Flush(io.write, InReadProtocol);
        } else {
          wrote, status, progress := SendPending(io.write);
          if status == Continue && outLen == 0 {
            if io.onOpen { neg, status := Done, Completed; } else { status := Failure(ErrProtocol); }
          }
        }
      case InReadProtocol =>
        took, message, status, progress := ReadOne(io.read);
        if message.Some? {
          ghost var o := Out(View(), wrote, took, message, status, progress);
          status := AnswerRequest(registry, message.value, o);
        }
      case InSendNa => wrote, status, progress := Flush(io.write, InReadProtocol);
      case InSendLs => wrote, status, progress := Flush(io.write, InReadProtocol);
      case _ => status := Failure(ErrState);
    }

    /** host_stream_negotiation_step. */
    method NegotiationStep(registry: seq<Id>, io: Io)
      returns (wrote: seq<byte>, took: seq<byte>, message: Option<Frame.Payload>, status: Status, progress: bool)
      requires Valid() && Obeys(View(), io.read)
      modifies this, inFrame, payload, outFrame
      ensures Valid() && Out(View(), wrote, took, message, status, progress) == Step(registry, old(View()), io)
    {
      hide OutboundStep, InboundStep;
      if outbound {
        wrote, took, message, status, progress := OutStep(io);
      } else {
        wrote, took, message, status, progress := InStep(registry, io);
      }
      if status.Failure? {
        neg := Failed;
        progress := progress || !Settled(status.error);
      }
    }

    /** libp2p_host_stream_read on an open stream: leftover negotiation input first, then the transport. */
    method Read(pipe: seq<byte>, count: nat) returns (h: Session.Handed)
      requires Valid()
      modifies this`inLen, inFrame
      ensures Valid() && h == Session.StreamRead(old(View()), pipe, count)
      ensures View() == old(View()).(inFrame := h.inFrame)
    {
      if inLen != 0 {
        var n := if inLen > count then count else inLen;
        var bytes := inFrame[..n];
        Compact(n);
        return Session.Handed(bytes, inFrame[..inLen], pipe);
      }
      var n := if count < |pipe| then count else |pipe|;
      return Session.Handed(pipe[..n], [], pipe[n..]);
    }
  }
}
