/** One host stream against an arbitrary peer: every byte read from the transport is accounted for, in order. */
module Ledger {
  import opened Bytes
  import opened Negotiation
  import Frame

  /** A stream with what it has read so far, the frames negotiation consumed, and the bytes handed to the protocol. */
  datatype Account = Account(stream: Stream, read: seq<byte>, messages: seq<Frame.Payload>, handed: seq<byte>)

  /** A negotiation step, or a stream_read of `count` bytes for which the transport, if asked, returns `arrived`. */
  datatype Op = Negotiate(io: Io) | Hand(count: nat, arrived: seq<byte>)

  predicate Enabled(a: Account, op: Op) {
    match op
    case Negotiate(io) => a.stream.Valid() && Negotiating(a.stream) && Obeys(a.stream, io.read)
    case Hand(count, arrived) => a.stream.neg == Done && |arrived| <= count
  }

  function Apply(registry: seq<Id>, a: Account, op: Op): Account
    requires Enabled(a, op)
  {
    match op
    case Negotiate(io) =>
      var o := Step(registry, a.stream, io);
      Account(o.stream, a.read + o.took,
              if o.message.Some? then a.messages + [o.message.value] else a.messages, a.handed)
    case Hand(count, arrived) =>
      var s := a.stream;
      if s.inFrame != [] then
        var n := if count < |s.inFrame| then count else |s.inFrame|;
        a.(stream := s.(inFrame := s.inFrame[n..]), handed := a.handed + s.inFrame[..n])
      else a.(read := a.read + arrived, handed := a.handed + arrived)
  }

  function Run(registry: seq<Id>, start: Stream, ops: seq<Op>): Option<Account>
    decreases |ops|
  {
    if ops == [] then Some(Account(start, [], [], []))
    else
      var k := |ops| - 1;
      match Run(registry, start, ops[..k])
      case Some(a) => if Enabled(a, ops[k]) then Some(Apply(registry, a, ops[k])) else None
      case None => None
  }

  predicate Balanced(a: Account) {
    && a.read == Frame.Encodes(a.messages) + a.handed + a.stream.inFrame
    && (a.stream.neg != Done ==> a.handed == [])
  }

  lemma NegotiateBalanced(registry: seq<Id>, a: Account, io: Io)
    requires Balanced(a) && Enabled(a, Negotiate(io))
    ensures Balanced(Apply(registry, a, Negotiate(io)))
  {
    hide Step, Frame.Encode, Frame.Encodes;
    var o := Step(registry, a.stream, io);
    var base := Frame.Encodes(a.messages);
    assert base + [] + a.stream.inFrame + o.took == base + (a.stream.inFrame + o.took);
    if o.message.Some? {
      Frame.EncodesAppend(a.messages, o.message.value);
      var f := Frame.Encode(o.message.value);
      assert base + (f + o.stream.inFrame) == (base + f) + [] + o.stream.inFrame;
    } else {
      assert base + ([] + o.stream.inFrame) == base + [] + o.stream.inFrame;
    }
  }

  lemma HandBalanced(registry: seq<Id>, a: Account, op: Op)
    requires Balanced(a) && op.Hand? && Enabled(a, op)
    ensures Balanced(Apply(registry, a, op))
  {
    hide Frame.Encodes;
    var s, base := a.stream, Frame.Encodes(a.messages);
    if s.inFrame != [] {
      var n := if op.count < |s.inFrame| then op.count else |s.inFrame|;
      assert s.inFrame == s.inFrame[..n] + s.inFrame[n..];
      assert base + a.handed + (s.inFrame[..n] + s.inFrame[n..]) == base + (a.handed + s.inFrame[..n]) + s.inFrame[n..];
    } else {
      assert base + a.handed + [] + op.arrived == base + (a.handed + op.arrived) + [];
    }
  }

  /**
    For every peer, every chunking and every mix of steps: the frames consumed, then the bytes handed to the
    protocol, then the bytes still buffered are exactly the bytes read, and no byte is handed out early.
  */
  lemma {:induction false} Conservation(registry: seq<Id>, start: Stream, ops: seq<Op>)
    requires start.inFrame == [] && Run(registry, start, ops).Some?
    ensures Balanced(Run(registry, start, ops).value)
    decreases |ops|
  {
    hide Apply, Enabled, Balanced;
    if ops == [] {
      StartBalanced(start);
    } else {
      var k := |ops| - 1;
      Conservation(registry, start, ops[..k]);
      var a := Run(registry, start, ops[..k]).value;
      match ops[k]
      case Negotiate(io) => NegotiateBalanced(registry, a, io);
      case Hand(_, _) => HandBalanced(registry, a, ops[k]);
    }
  }

  lemma StartBalanced(start: Stream)
    requires start.inFrame == []
    ensures Balanced(Account(start, [], [], []))
  {
  }
}
