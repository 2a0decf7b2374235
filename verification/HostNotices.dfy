/** Notifications to protocols: every one has a cause, the most urgent comes first, and none gets lost. */
module HostNotices {
  import opened Bytes
  import opened Host
  import opened HostInv
  import opened HostStreams
  import opened HostRuns

  /** A reset goes before a close, a close before data to read, data to read before room to write. */
  predicate Before(x: Callback, y: Callback) {
    match x
    case OnReset => y != OnReset
    case OnClosed => y == OnReadable || y == OnWritable
    case OnReadable => y == OnWritable
    case _ => false
  }

  /** k is pending, and nothing that goes before it is. */
  predicate Foremost(s: Stream, k: Callback) {
    Owes(s, k) && forall j :: Owes(s, j) && j != k ==> Before(k, j)
  }

  // ------------------------------------------------------------- one stream incarnation

  predicate HeldAt(h: Host, i: nat, n: nat) {
    i < |h.streams| && h.streams[i].state != StreamFree && h.streams[i].id == n
  }

  /** Some slot holds incarnation n. */
  ghost predicate Held(h: Host, n: nat) {
    exists i: nat :: HeldAt(h, i, n)
  }

  /** Notification k of incarnation n is pending. */
  ghost predicate Pends(h: Host, n: nat, k: Callback) {
    exists i: nat :: HeldAt(h, i, n) && Owes(h.streams[i], k)
  }

  /** The step is a cause of notification k for incarnation n. */
  ghost predicate Raised(h: Host, l: Label, n: nat, k: Callback) {
    exists i: nat :: HeldAt(h, i, n) && Raises(h, l, i, k)
  }

  /** The step tells the protocol of incarnation n notification k, the foremost one pending. */
  predicate Told(h: Host, l: Label, n: nat, k: Callback) {
    l.LDeliver? && Tells(h, l, l.stream) && HeldAt(h, l.stream, n) && Foremost(h.streams[l.stream], k)
  }

  lemma UrgentForemost(s: Stream, k: Callback)
    requires !Idle(s)
    ensures Foremost(s, k) <==> k == Urgent(s)
  {
    assert Owes(s, Urgent(s));
  }

  // ------------------------------------------------------------------------- single steps

  /** What is pending after a step was pending before, or the step is its cause. */
  lemma PendsBack(h: Host, l: Label, n: nat, k: Callback)
    requires Inv(h) && Enabled(h, l) && h.streams != [] && Pends(Apply(h, l), n, k)
    ensures Pends(h, n, k) || Raised(h, l, n, k)
  {
    hide Inv, Apply, Enabled, Raises, Tells, Owes;
    PendingTurns(h, l, 0, k);
    var i: nat :| HeldAt(Apply(h, l), i, n) && Owes(Apply(h, l).streams[i], k);
    PendingTurns(h, l, i, k);
    IdleOwes(Apply(h, l).streams[i], k);
    assert HeldAt(h, i, n);
  }

  lemma IdleOwes(s: Stream, k: Callback)
    ensures Idle(s) ==> !Owes(s, k)
  {
  }

  /** No two slots hold the same incarnation, and none holds one that is still to come. */
  lemma HeldOnce(h: Host, i: nat, j: nat, n: nat)
    requires Inv(h) && HeldAt(h, i, n)
    ensures n < h.born && (HeldAt(h, j, n) ==> j == i)
  {
    hide Structure, Queued, Attempts, LastWord, TalkOf;
  }

  /** A slot that is given back takes its incarnation with it. */
  lemma GoneFromSlot(h: Host, l: Label, n: nat, i: nat)
    requires Inv(h) && Enabled(h, l) && h.streams != [] && HeldAt(h, i, n)
    ensures !HeldAt(Apply(h, l), i, n) ==> !Held(Apply(h, l), n)
  {
    hide Inv, Apply, Enabled, Raises, Tells, Owes;
    HeldOnce(h, i, i, n);
    if !HeldAt(Apply(h, l), i, n) && Held(Apply(h, l), n) {
      PendingTurns(h, l, 0, OnReset);
      var j: nat :| HeldAt(Apply(h, l), j, n);
      PendingTurns(h, l, j, OnReset);
      HeldOnce(h, i, j, n);
    }
  }

  /** An incarnation that is in no slot any more stays away. */
  lemma GoneStays(h: Host, l: Label, n: nat)
    requires Inv(h) && Enabled(h, l) && h.streams != [] && n < h.born
    ensures Held(Apply(h, l), n) ==> Held(h, n)
  {
    hide Inv, Apply, Enabled, Raises, Tells, Owes;
    if Held(Apply(h, l), n) {
      PendingTurns(h, l, 0, OnReset);
      var j: nat :| HeldAt(Apply(h, l), j, n);
      PendingTurns(h, l, j, OnReset);
      assert HeldAt(h, j, n);
    }
  }

  /** A pending notification stays pending until the protocol is told, or the stream is given back. */
  lemma PendsForth(h: Host, l: Label, n: nat, k: Callback)
    requires Inv(h) && Enabled(h, l) && h.streams != [] && Pends(h, n, k)
    ensures Pends(Apply(h, l), n, k) || Told(h, l, n, k) || !Held(Apply(h, l), n)
  {
    hide Inv, Apply, Enabled, Raises, Owes, Foremost, Urgent;
    var i: nat :| HeldAt(h, i, n) && Owes(h.streams[i], k);
    PendingTurns(h, l, i, k);
    GoneFromSlot(h, l, n, i);
    if Tells(h, l, i) { UrgentForemost(h.streams[i], k); }
  }

  /** What was told is no longer pending. */
  lemma ToldGone(h: Host, l: Label, n: nat, k: Callback)
    requires Inv(h) && Enabled(h, l) && Told(h, l, n, k)
    ensures !Pends(Apply(h, l), n, k)
  {
    hide Inv, Apply, Enabled, Raises, Foremost;
    var i := l.stream;
    UrgentForemost(h.streams[i], k);
    TellTakes(h, l, i);
    if Pends(Apply(h, l), n, k) {
      var j: nat :| HeldAt(Apply(h, l), j, n) && Owes(Apply(h, l).streams[j], k);
      PendingTurns(h, l, j, k);
      HeldOnce(h, i, j, n);
    }
  }

  /** A cause makes the notification pending, unless the stream is given up in the same step. */
  lemma RaisedPends(h: Host, l: Label, n: nat, k: Callback)
    requires Inv(h) && Enabled(h, l) && Inv(Apply(h, l)) && h.streams != [] && Raised(h, l, n, k)
    ensures Pends(Apply(h, l), n, k) || !Held(Apply(h, l), n)
    ensures n < h.born
  {
    hide Inv, Apply, Enabled, Raises, Tells, Owes;
    var i: nat :| HeldAt(h, i, n) && Raises(h, l, i, k);
    HeldOnce(h, i, i, n);
    RaiseMarks(h, l, i, k);
    GoneFromSlot(h, l, n, i);
  }

  // ------------------------------------------------------------------------------ runs

  ghost predicate PendsAt(m: Limits, labels: seq<Label>, t: nat, n: nat, k: Callback)
    requires Run(m, labels).Some? && t <= |labels|
  {
    Pends(Past(m, labels, t), n, k)
  }

  ghost predicate RaisedAt(m: Limits, labels: seq<Label>, c: nat, n: nat, k: Callback)
    requires Run(m, labels).Some? && c < |labels|
  {
    Raised(Past(m, labels, c), labels[c], n, k)
  }

  ghost predicate ToldAt(m: Limits, labels: seq<Label>, j: nat, n: nat, k: Callback)
    requires Run(m, labels).Some? && j < |labels|
  {
    Told(Past(m, labels, j), labels[j], n, k)
  }

  lemma {:induction false} SlotsStay(m: Limits, labels: seq<Label>, t: nat)
    requires ValidLimits(m) && Run(m, labels).Some? && t <= |labels|
    ensures Past(m, labels, t).streams != []
  {
    hide Run, Past, Inv, Enabled, Apply, Turns;
    if t == 0 {
      PastEnds(m, labels);
      assert m.conns * m.streamsPerConn >= 1;
    } else {
      SlotsStay(m, labels, t - 1);
      PastStep(m, labels, t - 1);
      SlotTurns(Past(m, labels, t - 1), labels[t - 1], 0);
    }
  }

  lemma NothingPendsAtFirst(m: Limits, labels: seq<Label>, n: nat, k: Callback)
    requires Run(m, labels).Some?
    ensures !PendsAt(m, labels, 0, n, k)
  {
    hide Run, Past;
    PastEnds(m, labels);
  }

  /** What is pending has had a cause, and has been pending ever since. */
  lemma {:induction false} PendsSince(m: Limits, labels: seq<Label>, t: nat, n: nat, k: Callback) returns (c: nat)
    requires ValidLimits(m) && Run(m, labels).Some? && t <= |labels| && PendsAt(m, labels, t, n, k)
    ensures c < t && RaisedAt(m, labels, c, n, k)
    ensures forall u :: c < u <= t ==> PendsAt(m, labels, u, n, k)
  {
    hide Run, Past, Inv, Apply, Enabled, Pends, Raised;
    if t == 0 {
      NothingPendsAtFirst(m, labels, n, k);
      assert false;
    }
    PastStep(m, labels, t - 1);
    SlotsStay(m, labels, t - 1);
    PendsBack(Past(m, labels, t - 1), labels[t - 1], n, k);
    c := t - 1;
    if !RaisedAt(m, labels, t - 1, n, k) { c := PendsSince(m, labels, t - 1, n, k); }
  }

  /** Who is told something is told it for a cause that came after the last time it was told that. */
  lemma ToldForCause(m: Limits, labels: seq<Label>, j: nat, n: nat, k: Callback) returns (c: nat)
    requires ValidLimits(m) && Run(m, labels).Some? && j < |labels| && ToldAt(m, labels, j, n, k)
    ensures c < j && RaisedAt(m, labels, c, n, k)
    ensures forall u :: c < u < j ==> !ToldAt(m, labels, u, n, k)
  {
    hide Run, Past, Inv, Apply, Enabled, Raised, Raises, Tells;
    assert PendsAt(m, labels, j, n, k) by { assert HeldAt(Past(m, labels, j), labels[j].stream, n); }
    c := PendsSince(m, labels, j, n, k);
    forall u | c < u < j ensures !ToldAt(m, labels, u, n, k) { ToldOrPending(m, labels, u, n, k); }
  }

  lemma ToldOrPending(m: Limits, labels: seq<Label>, u: nat, n: nat, k: Callback)
    requires ValidLimits(m) && Run(m, labels).Some? && u < |labels|
    ensures ToldAt(m, labels, u, n, k) ==> !PendsAt(m, labels, u + 1, n, k)
  {
    hide Run, Past, Inv, Apply, Enabled, Told, Pends;
    PastStep(m, labels, u);
    if ToldAt(m, labels, u, n, k) { ToldGone(Past(m, labels, u), labels[u], n, k); }
  }

  /** Label j made the protocol call number q. */
  ghost predicate MadeAt(m: Limits, labels: seq<Label>, j: nat, q: nat)
    requires Run(m, labels).Some? && j < |labels|
  {
    |Past(m, labels, j).calls| <= q < |Past(m, labels, j + 1).calls|
  }

  /** Calls once made stay on record; each was made by one label, and says what that label told. */
  lemma {:induction false} CallMade(m: Limits, labels: seq<Label>, t: nat, q: nat) returns (j: nat)
    requires ValidLimits(m) && Run(m, labels).Some? && t <= |labels| && q < |Past(m, labels, t).calls|
    requires Past(m, labels, t).calls[q].callback != OnOpen
    ensures j < t && MadeAt(m, labels, j, q)
    ensures
      var call := Past(m, labels, t).calls[q];
      ToldAt(m, labels, j, call.stream, call.callback)
  {
    hide Run, Past, Inv, Apply, Enabled, OnlyNews, Foremost;
    if t == 0 {
      PastEnds(m, labels);
      assert false;
    }
    j := t - 1;
    PastStep(m, labels, j);
    var h, l := Past(m, labels, j), labels[j];
    StepRecords(h, l);
    if q < |h.calls| {
      j := CallMade(m, labels, t - 1, q);
    } else {
      assert l.LDeliver?;
      UrgentForemost(h.streams[l.stream], Urgent(h.streams[l.stream]));
    }
  }

  /**
    Every callback other than on_open has a cause. Call q of any run was made by a label j that told the foremost
    pending notification, and since the incarnation was last told the same there was a cause for it: a transport
    event about the stream, the end of its connection, or its own coming up.
  */
  lemma CallsHaveCauses(m: Limits, labels: seq<Label>, q: nat) returns (j: nat, c: nat)
    requires ValidLimits(m) && Run(m, labels).Some? && q < |Run(m, labels).value.calls|
    requires Run(m, labels).value.calls[q].callback != OnOpen
    ensures
      var call := Run(m, labels).value.calls[q];
      && c < j < |labels| && MadeAt(m, labels, j, q) && ToldAt(m, labels, j, call.stream, call.callback)
      && RaisedAt(m, labels, c, call.stream, call.callback)
      && forall u :: c < u < j ==> !ToldAt(m, labels, u, call.stream, call.callback)
  {
    hide Run, Past, ToldAt, RaisedAt, MadeAt;
    PastEnds(m, labels);
    j := CallMade(m, labels, |labels|, q);
    var call := Run(m, labels).value.calls[q];
    c := ToldForCause(m, labels, j, call.stream, call.callback);
  }

  /** Gone is gone. */
  ghost predicate GoneAt(m: Limits, labels: seq<Label>, t: nat, n: nat)
    requires Run(m, labels).Some? && t <= |labels|
  {
    !Held(Past(m, labels, t), n) && n < Past(m, labels, t).born
  }

  /**
    No cause gets lost: at any later moment the notification is still pending, or the protocol has been told since,
    or the stream has been given back.
  */
  lemma {:induction false} CausesAreHeard(m: Limits, labels: seq<Label>, c: nat, t: nat, n: nat, k: Callback)
    requires ValidLimits(m) && Run(m, labels).Some? && c < t <= |labels| && RaisedAt(m, labels, c, n, k)
    ensures PendsAt(m, labels, t, n, k) || GoneAt(m, labels, t, n)
      || exists j :: c < j < t && ToldAt(m, labels, j, n, k)
  {
    hide Run, Past, Inv, Apply, Enabled, Raised, Told, Pends, Held, OnlyNews, Spoken;
    PastStep(m, labels, t - 1);
    SlotsStay(m, labels, t - 1);
    var h, l := Past(m, labels, t - 1), labels[t - 1];
    StepRecords(h, l);
    if t == c + 1 {
      RaisedPends(h, l, n, k);
    } else {
      CausesAreHeard(m, labels, c, t - 1, n, k);
      if PendsAt(m, labels, t - 1, n, k) {
        BornBefore(h, n, k);
        PendsForth(h, l, n, k);
        assert Told(h, l, n, k) == ToldAt(m, labels, t - 1, n, k);
      } else if GoneAt(m, labels, t - 1, n) {
        GoneStays(h, l, n);
      }
    }
  }

  lemma BornBefore(h: Host, n: nat, k: Callback)
    requires Inv(h) && Pends(h, n, k)
    ensures n < h.born
  {
    hide Inv;
    var i: nat :| HeldAt(h, i, n) && Owes(h.streams[i], k);
    HeldOnce(h, i, i, n);
  }
}
