/** Sequences of steps: what they lead to, which of them make a drive fail, and what they leave a trace of. */
module HostExec {
  import opened Bytes
  import opened Host
  import opened HostWaiting
  import HostInv
  import HostRuns

  /** The state that the labels lead to from h, or None when some label was not enabled. */
  function Exec(h: Host, labels: seq<Label>): Option<Host>
    decreases |labels|
  {
    if labels == [] then Some(h)
    else
      var k := |labels| - 1;
      match Exec(h, labels[..k])
      case Some(y) => if Enabled(y, labels[k]) then Some(Apply(y, labels[k])) else None
      case None => None
  }

  /** Runs are executions from start-up. */
  lemma {:induction false} RunIsExec(m: Limits, labels: seq<Label>)
    ensures Run(m, labels) == Exec(Fresh(m), labels)
    decreases |labels|
  {
    hide Apply, Enabled, Fresh;
    if labels != [] { RunIsExec(m, labels[..|labels| - 1]); }
  }

  lemma {:induction false} ExecKeeps(h: Host, labels: seq<Label>)
    requires HostInv.Inv(h) && Exec(h, labels).Some?
    ensures HostInv.Inv(Exec(h, labels).value)
    decreases |labels|
  {
    hide HostInv.Inv, Apply, Enabled;
    if labels != [] {
      var k := |labels| - 1;
      ExecKeeps(h, labels[..k]);
      HostRuns.ApplyKeeps(Exec(h, labels[..k]).value, labels[k]);
    }
  }

  lemma ExecLosesNothing(h: Host, labels: seq<Label>, z: Host)
    requires Exec(h, labels) == Some(z)
    ensures HostInv.Inv(h) ==> HostInv.Inv(z) && z.lost == 0
  {
    hide Exec;
    if HostInv.Inv(h) { ExecKeeps(h, labels); }
  }

  // ------------------------------------------------------- steps that make the drive fail

  predicate Notifies(s: Stream) {
    s.state == StreamOpen && (s.reset || s.closed || s.readable || s.writable)
  }

  /**
    What makes libp2p_host_drive stop and return an error: a transport event that cannot be taken in, a notification
    that its protocol refuses, a connection that the transport fails to release, or an event that does not fit.
  */
  predicate Faulty(h: Host, l: Label)
    requires Enabled(h, l)
  {
    || Apply(h, l).lost != h.lost
    || match l
       case LTransport(e, _) => TransportStatus(h, e) != Ok
       case LDeliver(i, x, _) => x == Refused && Notifies(h.streams[i])
       case LRecycle(c, a) => RecycleStatus(h, c, a) != Ok
       case _ => false
  }

  /** None of the labels is faulty where it is taken. */
  predicate Sound(h: Host, labels: seq<Label>)
    requires Exec(h, labels).Some?
    decreases |labels|
  {
    labels == [] ||
    (var k := |labels| - 1;
     Sound(h, labels[..k]) && !Faulty(Exec(h, labels[..k]).value, labels[k]))
  }

  lemma SoundStep(h: Host, labels: seq<Label>, y: Host, l: Label)
    requires Exec(h, labels) == Some(y) && Enabled(y, l)
    ensures Exec(h, labels + [l]) == Some(Apply(y, l))
    ensures Sound(h, labels + [l]) <==> Sound(h, labels) && !Faulty(y, l)
  {
    hide Apply, Enabled, Faulty;
    assert (labels + [l])[..|labels|] == labels;
  }

  lemma SoundOne(h: Host, l: Label)
    requires Enabled(h, l)
    ensures Exec(h, [l]) == Some(Apply(h, l)) && (Sound(h, [l]) <==> !Faulty(h, l))
  {
    hide Apply, Enabled, Faulty;
    SoundStep(h, [], h, l);
    assert [] + [l] == [l];
  }

  lemma {:induction false} SoundThen(h: Host, a: seq<Label>, y: Host, b: seq<Label>, z: Host)
    requires Exec(h, a) == Some(y) && Exec(y, b) == Some(z)
    ensures Exec(h, a + b) == Some(z) && (Sound(h, a + b) <==> Sound(h, a) && Sound(y, b))
    decreases |b|
  {
    hide Apply, Enabled, Faulty;
    if b == [] {
      assert a + b == a;
    } else {
      var k := |b| - 1;
      var x := Exec(y, b[..k]).value;
      SoundThen(h, a, y, b[..k], x);
      SoundStep(h, a + b[..k], x, b[k]);
      assert a + b == a + b[..k] + [b[k]];
    }
  }

  lemma ExecBracket(h: Host, labels: seq<Label>, z: Host)
    requires !h.driving && h.phase != Closed && z.driving && Exec(h.(driving := true), labels) == Some(z)
    ensures Exec(h, [LDrive] + labels + [LReturn]) == Some(z.(driving := false))
    ensures Sound(h, [LDrive] + labels + [LReturn]) <==> Sound(h.(driving := true), labels)
  {
    hide Exec, Sound;
    SoundOne(h, LDrive);
    SoundThen(h, [LDrive], h.(driving := true), labels, z);
    SoundStep(h, [LDrive] + labels, z, LReturn);
  }

  lemma NoLabels(h: Host)
    ensures Exec(h, []) == Some(h) && Sound(h, [])
  {
  }

  // ------------------------------------------------------------- what the labels tell

  /** All are steps of a drive. */
  ghost predicate AllInner(labels: seq<Label>) {
    forall k :: 0 <= k < |labels| ==> Inner(labels[k])
  }

  /** The labels lead from h to z, and are steps of a drive. */
  ghost predicate Went(h: Host, labels: seq<Label>, z: Host) {
    Exec(h, labels) == Some(z) && AllInner(labels)
  }

  lemma {:induction false} ExecWaits(h: Host, labels: seq<Label>, z: Host)
    requires Went(h, labels, z)
    ensures WaitKept(h, z)
    decreases |labels|
  {
    hide Apply, Enabled, Inner, WaitKept;
    if labels == [] {
      SameOpens(h, h);
    } else {
      var k := |labels| - 1;
      var y := Exec(h, labels[..k]).value;
      ExecWaits(h, labels[..k], y);
      StepWaits(y, labels[k]);
      WaitThen(h, y, z);
    }
  }

  lemma WentOne(h: Host, l: Label)
    requires Enabled(h, l) && Inner(l)
    ensures Went(h, [l], Apply(h, l)) && (Sound(h, [l]) <==> !Faulty(h, l))
  {
    hide Apply, Enabled, Faulty, Exec, Sound, Inner;
    SoundOne(h, l);
  }

  lemma WentNowhere(h: Host)
    ensures Went(h, [], h) && Sound(h, [])
  {
  }

  lemma WentThen(h: Host, a: seq<Label>, y: Host, b: seq<Label>, z: Host)
    requires Went(h, a, y) && Went(y, b, z)
    ensures Went(h, a + b, z) && (Sound(h, a + b) <==> Sound(h, a) && Sound(y, b))
  {
    hide Exec, Sound, Inner;
    SoundThen(h, a, y, b, z);
  }

  lemma WentMore(h: Host, a: seq<Label>, y: Host, l: Label)
    requires Went(h, a, y) && Enabled(y, l) && Inner(l)
    ensures Went(h, a + [l], Apply(y, l)) && (Sound(h, a + [l]) <==> Sound(h, a) && !Faulty(y, l))
  {
    hide Exec, Sound, Inner, Apply, Enabled, Faulty;
    SoundStep(h, a, y, l);
  }

  /** The transport was asked for a stream for open o. */
  ghost predicate Asked(labels: seq<Label>, o: nat) {
    exists k :: 0 <= k < |labels| && labels[k].LRetry? && labels[k].open == o
  }

  /** The negotiation of stream i took a step that did not end it. */
  ghost predicate Stepped(labels: seq<Label>, i: nat) {
    exists k :: 0 <= k < |labels| && labels[k].LNegotiate? && labels[k].stream == i && labels[k].outcome == Unfinished
  }

  /** The transport was asked to release connection c, and wants to keep it for now. */
  ghost predicate Kept(labels: seq<Label>, c: nat) {
    exists k :: 0 <= k < |labels| && labels[k].LRecycle? && labels[k].conn == c && labels[k].released == ReleaseLater
  }

  lemma LabelsStay(a: seq<Label>, b: seq<Label>, n: nat)
    ensures Asked(a, n) || Asked(b, n) ==> Asked(a + b, n)
    ensures Stepped(a, n) || Stepped(b, n) ==> Stepped(a + b, n)
    ensures Kept(a, n) || Kept(b, n) ==> Kept(a + b, n)
  {
    var ab := a + b;
    assert forall k :: 0 <= k < |a| ==> ab[k] == a[k];
    assert forall k :: 0 <= k < |b| ==> ab[|a| + k] == b[k];
  }

  // ------------------------------------------------------------------- transport events

  /** The transport events among the labels, in order */
  function Received(labels: seq<Label>): seq<TransportEvent> {
    if labels == [] then []
    else (if labels[0].LTransport? then [labels[0].event] else []) + Received(labels[1..])
  }

  lemma {:induction false} ReceivedThen(a: seq<Label>, b: seq<Label>)
    ensures Received(a + b) == Received(a) + Received(b)
    decreases |a|
  {
    if a == [] {
      assert a + b == b && [] + Received(b) == Received(b);
    } else {
      assert (a + b)[1..] == a[1..] + b;
      ReceivedThen(a[1..], b);
      var first := if a[0].LTransport? then [a[0].event] else [];
      AssocEvents(first, Received(a[1..]), Received(b));
    }
  }

  lemma AssocEvents(a: seq<TransportEvent>, b: seq<TransportEvent>, c: seq<TransportEvent>)
    ensures a + (b + c) == (a + b) + c
  {
  }

  lemma {:induction false} NoneReceived(labels: seq<Label>)
    requires forall k :: 0 <= k < |labels| ==> !labels[k].LTransport?
    ensures Received(labels) == []
    decreases |labels|
  {
    if labels != [] { NoneReceived(labels[1..]); }
  }

  /** An event is taken as it is, but for a connection reported again while its closed slot is live. */
  predicate TakenAs(e: TransportEvent, taken: TransportEvent) {
    taken == e || (e.Established? && taken == Nothing)
  }

  /** The events received are the first of those that were ready, in order; the others are still ready. */
  ghost predicate InOrder(ready: seq<TransportEvent>, received: seq<TransportEvent>, left: seq<TransportEvent>) {
    && |received| <= |ready| && left == ready[|received|..]
    && forall k :: 0 <= k < |received| ==> TakenAs(ready[k], received[k])
  }

  lemma InOrderThen(ready: seq<TransportEvent>, a: seq<TransportEvent>, mid: seq<TransportEvent>,
                    b: seq<TransportEvent>, left: seq<TransportEvent>)
    requires InOrder(ready, a, mid) && InOrder(mid, b, left)
    ensures InOrder(ready, a + b, left)
  {
    forall k | 0 <= k < |a + b| ensures TakenAs(ready[k], (a + b)[k]) {
      if k >= |a| { assert mid[k - |a|] == ready[k]; }
    }
  }

  // ----------------------------------------------------------------------- round robins

  /** The slot that a cursor reaches from `start` after j moves in a table of n */
  function Slot(start: nat, j: nat, n: nat): (i: nat)
    requires start < n && j <= n
    ensures i < n
  {
    if start + j < n then start + j else start + j - n
  }

  /** One more move, as the code writes it */
  lemma SlotNext(start: nat, j: nat, n: nat)
    requires start < n && j < n
    ensures (Slot(start, j, n) + 1) % n == Slot(start, j + 1, n)
  {
    var i := Slot(start, j, n) + 1;
    if i < n { Small(i, n); }
  }

  lemma Small(i: nat, n: nat)
    requires i < n
    ensures i % n == i
  {
  }

  /** Every slot is reached within one round. */
  lemma SlotHit(start: nat, i: nat, n: nat) returns (j: nat)
    requires start < n && i < n
    ensures j < n && Slot(start, j, n) == i
  {
    j := if i >= start then i - start else i + n - start;
  }

  /** And no slot twice. */
  lemma SlotApart(start: nat, n: nat)
    requires start < n
    ensures forall j, k :: 0 <= j < k < n ==> Slot(start, j, n) != Slot(start, k, n)
  {
  }
}
