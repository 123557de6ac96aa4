/** The number of the END message. The protocol asks for the number after the last segment, which
    is seg_len; the program sends send_base. The two agree in every run exactly when the window is 1. */
module TransferEnd {
  import opened Words
  import opened Rtp
  import opened Sender
  import opened Transfer
  import opened TransferSafety
  import opened TransferBounds
  import opened TransferProgress
  import opened TransferRuns
  import Receiver
  import Segments

  /** Every END sent for this file, window and mode carries seg_len. */
  ghost predicate EndsAtCount(c: Session) {
    forall run: seq<Step> :: Possible(c, Start(), run) && After(c, Start(), run).closed ==>
      After(c, Start(), run).sender.base == Segments.Count(c.file)
  }

  /** Both sides have dealt with everything before `k`, and segment `k` alone is in flight. */
  ghost predicate Lockstep(c: Session, y: System, k: nat)
    requires Fits(c)
  {
    && Inv(c, y) && !y.closed && y.sender.base == k && y.sender.next == k + 1
    && y.receiver.base == k && NothingLater(y.receiver) && DataMessage(c.file, k) in y.data
  }

  lemma LockstepAdvances(c: Session, y: System, k: nat) returns (run: seq<Step>)
    requires Fits(c) && c.window >= 2 && Lockstep(c, y, k) && k + 1 < Segments.Count(c.file)
    ensures Possible(c, y, run) && Lockstep(c, After(c, y, run), k + 1)
  {
    hide Inv, Enabled, Apply, DataMessage, Receiver.AckMessage, Segments.Count, NothingLater, Absorb;
    BasesOrdered(c, y);
    DeliverExpected(c, y, k);
    var d := Deliver(DataMessage(c.file, k));
    var y1 := Apply(c, y, d);
    var n := if c.mode == Basic then k + 1 else k;
    BasesOrdered(c, y1);
    AnswerRound(c, y1, n);
    var e := Event(Receiver.AckMessage(n), false);
    RoundSends(c, y1, e);
    BasesOrdered(c, Apply(c, y1, Round(e)));
    OneMore(c, y, [], d);
    OneMore(c, y, [d], Round(e));
    assert [] + [d] == [d];
    run := [d] + [Round(e)];
  }

  lemma FirstLockstep(c: Session)
    requires Fits(c)
    ensures Possible(c, Start(), [Quiet(false)]) && Lockstep(c, After(c, Start(), [Quiet(false)]), 0)
  {
    hide Inv, Enabled, Apply, DataMessage, Absorb;
    InvAtStart(c);
    QuietRound(c, Start(), false);
    RoundSends(c, Start(), Event([], false));
    OneMore(c, Start(), [], Quiet(false));
    assert [] + [Quiet(false)] == [Quiet(false)];
  }

  lemma {:induction false} LockstepReached(c: Session, k: nat) returns (run: seq<Step>)
    requires Fits(c) && c.window >= 2 && k < Segments.Count(c.file)
    ensures Possible(c, Start(), run) && Lockstep(c, After(c, Start(), run), k)
  {
    hide Start, Possible, After, Lockstep, Segments.Count;
    StartSized();
    FirstLockstep(c);
    if k == 0 {
      run := [Quiet(false)];
    } else {
      var first := LockstepReached(c, k - 1);
      var y := After(c, Start(), first);
      var rest := LockstepAdvances(c, y, k - 1);
      ComposeAtStart(c, first, rest);
      run := first + rest;
    }
  }

  lemma LaterUnacked(c: Session, y: System, q: nat)
    requires Fits(c) && Inv(c, y) && c.mode == Opt && NothingLater(y.receiver) && y.receiver.base <= q < ACKED_SIZE
    ensures |y.sender.acked| == ACKED_SIZE && !y.sender.acked[q]
  {
    hide DataInv, AckInv, DataMessage, EndMessage;
  }

  /** The last segment and the empty one after it are both delivered before their ACKs are read. */
  lemma Overshoots(c: Session, y: System) returns (y3: System, run: seq<Step>)
    requires Fits(c) && c.window >= 2 && Lockstep(c, y, Segments.Count(c.file) - 1)
    ensures Possible(c, y, run) && y3 == After(c, y, run) && Inv(c, y3) && !y3.closed
    ensures y3.sender.base == Segments.Count(c.file) - 1
    ensures var n := Segments.Count(c.file);
      && y3.receiver.base == n + 1 && Receiver.AckMessage(n) in y3.acks
      && Receiver.AckMessage(if c.mode == Basic then n + 1 else n - 1) in y3.acks
      && (c.mode == Opt && n < ACKED_SIZE ==> |y3.sender.acked| == ACKED_SIZE && !y3.sender.acked[n])
  {
    hide Inv, Enabled, Apply, DataMessage, Receiver.AckMessage, NothingLater, Absorb;
    BasesOrdered(c, y);
    var n := Segments.Count(c.file);
    QuietRound(c, y, false);
    RoundSends(c, y, Event([], false));
    var y1 := Apply(c, y, Quiet(false));
    if c.mode == Opt && n < ACKED_SIZE {
      LaterUnacked(c, y1, n);
    }
    var d1, d2 := Deliver(DataMessage(c.file, n - 1)), Deliver(DataMessage(c.file, n));
    DeliverExpected(c, y1, n - 1);
    var y2 := Apply(c, y1, d1);
    DeliverExpected(c, y2, n);
    y3 := Apply(c, y2, d2);
    OneMore(c, y, [], Quiet(false));
    OneMore(c, y, [Quiet(false)], d1);
    OneMore(c, y, [Quiet(false), d1], d2);
    assert [] + [Quiet(false)] == [Quiet(false)] && [Quiet(false)] + [d1] == [Quiet(false), d1];
    run := [Quiet(false), d1] + [d2];
  }

  /** The cumulative ACK for both, or the two selective ACKs with the later one first, take
      send_base past seg_len. */
  lemma AcksOvershoot(c: Session, y: System) returns (run: seq<Step>)
    requires Fits(c) && Inv(c, y) && !y.closed && y.sender.base == Segments.Count(c.file) - 1
    requires var n := Segments.Count(c.file);
      && Receiver.AckMessage(n) in y.acks
      && Receiver.AckMessage(if c.mode == Basic then n + 1 else n - 1) in y.acks
    ensures Possible(c, y, run) && Inv(c, After(c, y, run)) && !After(c, y, run).closed
    ensures After(c, y, run).sender.base > Segments.Count(c.file)
  {
    hide Inv, Enabled, Apply, Receiver.AckMessage, Mark, RaiseBase, Slide;
    var n := Segments.Count(c.file);
    BasesOrdered(c, y);
    if c.mode == Basic {
      var e := Round(Event(Receiver.AckMessage(n + 1), false));
      AckRound(c, y, n + 1);
      RaiseBaseIsMax(y.sender.base, [n + 1]);
      assert [n + 1][0] in [n + 1];
      OneMore(c, y, [], e);
      run := [] + [e];
    } else {
      var e1, e2 := Round(Event(Receiver.AckMessage(n), false)), Round(Event(Receiver.AckMessage(n - 1), false));
      AckRound(c, y, n);
      var y1 := Apply(c, y, e1);
      LeastUnacked(c, y);
      MarkIsUnion(y.sender.acked, [n], n - 1);
      assert y1.sender.base == n - 1;
      AckRound(c, y1, n - 1);
      MarkIsUnion(y.sender.acked, [n], n);
      MarkIsUnion(y1.sender.acked, [n - 1], n - 1);
      MarkIsUnion(y1.sender.acked, [n - 1], n);
      assert [n][0] in [n] && [n - 1][0] in [n - 1];
      LeastUnacked(c, Apply(c, y1, e2));
      OneMore(c, y, [], e1);
      OneMore(c, y, [] + [e1], e2);
      run := [] + [e1] + [e2];
    }
  }

  lemma LeastUnacked(c: Session, y: System)
    requires Fits(c) && Inv(c, y) && c.mode == Opt
    ensures |y.sender.acked| == ACKED_SIZE && y.sender.base < ACKED_SIZE && !y.sender.acked[y.sender.base]
    ensures Segments.Count(c.file) < ACKED_SIZE
  {
    hide DataInv, AckInv, DataMessage, Segments.Count;
  }

  /** With a window of two or more there is a run, for every file, whose END carries a number past seg_len. */
  lemma EndOvershoots(c: Session) returns (run: seq<Step>)
    requires Fits(c) && c.window >= 2
    ensures Possible(c, Start(), run) && After(c, Start(), run).closed
    ensures After(c, Start(), run).sender.base > Segments.Count(c.file)
    ensures EndMessage(After(c, Start(), run).sender.base) in After(c, Start(), run).data
  {
    hide Start, Possible, After, Lockstep, Inv, Enabled, Apply, Receiver.AckMessage, EndMessage;
    StartSized();
    var a := LockstepReached(c, Segments.Count(c.file) - 1);
    var y, b := Overshoots(c, After(c, Start(), a));
    ComposeAtStart(c, a, b);
    var d := AcksOvershoot(c, y);
    ComposeAtStart(c, a + b, d);
    var z := After(c, y, d);
    BasesOrdered(c, z);
    EndSent(c, z);
    OneMore(c, Start(), a + b + d, Terminate);
    run := a + b + d + [Terminate];
  }

  lemma EndSent(c: Session, y: System)
    requires Receiver.Sized(y.receiver) && !y.closed && Finished(c, y.sender)
    ensures Enabled(c, y, Terminate)
    ensures var y' := Apply(c, y, Terminate);
      y'.closed && y'.sender == y.sender && y'.receiver == y.receiver && EndMessage(y.sender.base) in y'.data
  {
    hide EndMessage;
  }

  lemma EndAtCount(c: Session, run: seq<Step>)
    requires Fits(c) && c.window == 1 && Possible(c, Start(), run) && After(c, Start(), run).closed
    ensures After(c, Start(), run).sender.base == Segments.Count(c.file)
  {
    hide Start, Possible, After, Inv, Enabled, Apply, Segments.Count;
    StartSized();
    InvAtStart(c);
    RunKeeps(c, Start(), run);
    BasesOrdered(c, After(c, Start(), run));
    if !Finished(c, After(c, Start(), run).sender) {
      ClosedIsFinished(c, After(c, Start(), run));
    }
  }

  /** The END number is seg_len in every run if and only if the window is 1. */
  lemma EndNumber(c: Session)
    requires Fits(c)
    ensures EndsAtCount(c) <==> c.window == 1
  {
    hide Start, Enabled, Apply, Possible, After;
    StartSized();
    if c.window == 1 {
      forall run: seq<Step> | Possible(c, Start(), run) && After(c, Start(), run).closed
        ensures After(c, Start(), run).sender.base == Segments.Count(c.file)
      {
        EndAtCount(c, run);
      }
    } else {
      var run := EndOvershoots(c);
      assert !EndsAtCount(c);
    }
  }

  // ----- the number of the END's ACK -----

  /** The receiver's answer to the END carries the END's own number, in every run. */
  ghost predicate EndAcksMatch(c: Session) {
    forall y :: Reachable(c, y) && EndDue(y) ==>
      EndAnswer(c, y) == [Receiver.AckMessage(y.sender.base)]
  }

  /** An END is in flight and none has been accepted. */
  predicate EndDue(y: System) {
    Receiver.Sized(y.receiver) && y.closed && !y.receiver.done
  }

  function EndAnswer(c: Session, y: System): seq<Datagram>
    requires EndDue(y)
  {
    var d := EndMessage(y.sender.base);
    if |d| <= PACKET_SIZE then Receiver.Replies(c.mode, c.window, y.receiver, ReadPacket(d)) else []
  }

  /** The receiver answers recv_base; that is the END's number exactly when it has not received the
      segment of that number, which is past the last one. */
  lemma EndAnswerIs(c: Session, y: System)
    requires Fits(c) && Inv(c, y) && EndDue(y)
    ensures EndAnswer(c, y) == [Receiver.AckMessage(y.receiver.base)]
    ensures y.sender.base < |y.receiver.cached|
    ensures EndAnswer(c, y) == [Receiver.AckMessage(y.sender.base)] <==> !y.receiver.cached[y.sender.base]
  {
    hide DataInv, AckInv, DataMessage, EndMessage, ReadPacket, Receiver.Closes, Receiver.AckMessage, Carries, Acks,
      Content, Segments.Read, Segments.Joined;
    var n, m := y.sender.base, y.receiver.base;
    BasesOrdered(c, y);
    SentEnd(n);
    EndCloses(y.receiver, EndMessage(n), n);
    SentAck(n);
    SentAck(m);
    assert [n][0] == n && [m][0] == m;
  }

  lemma CountPositive(file: seq<bv8>)
    ensures Segments.Count(file) >= 1
  {
  }

  /** Reading the ACK of the last segment alone takes send_base to seg_len. */
  lemma LastAckRead(c: Session, y: System, m: nat)
    requires Fits(c) && Inv(c, y) && !y.closed && y.sender.base == Segments.Count(c.file) - 1
    requires Receiver.AckMessage(m) in y.acks && m == if c.mode == Basic then y.sender.base + 1 else y.sender.base
    requires c.mode == Opt && y.sender.base + 1 < ACKED_SIZE ==>
      |y.sender.acked| == ACKED_SIZE && !y.sender.acked[y.sender.base + 1]
    ensures Enabled(c, y, Round(Event(Receiver.AckMessage(m), false)))
    ensures var y' := Apply(c, y, Round(Event(Receiver.AckMessage(m), false)));
      Inv(c, y') && !y'.closed && y'.sender.base == Segments.Count(c.file) && y'.receiver == y.receiver
  {
    hide Inv, Enabled, Apply, Receiver.AckMessage, Mark, RaiseBase, Slide, Segments.Count;
    BasesOrdered(c, y);
    AckRound(c, y, m);
    var e := Event(Receiver.AckMessage(m), false);
    OtherSteps(c, y, Round(e));
    assert [m][0] in [m];
    if c.mode == Basic {
      RaiseBaseIsMax(y.sender.base, [m]);
    } else {
      LeastUnacked(c, y);
      MarkIsUnion(y.sender.acked, [m], m);
      MarkIsUnion(y.sender.acked, [m], m + 1);
    }
  }

  /** The ACK that covers just the last segment is read, although a later one has been received. */
  lemma EndAckOvershoots(c: Session) returns (y: System)
    requires Fits(c) && c.window >= 2
    ensures Reachable(c, y) && EndDue(y) && y.sender.base == Segments.Count(c.file) < y.receiver.base
  {
    hide Start, Possible, After, Lockstep, Inv, Enabled, Apply, Receiver.AckMessage, EndMessage, Mark, RaiseBase,
      Slide, Segments.Count;
    StartSized();
    var n := Segments.Count(c.file);
    assert n >= 1 by {
      CountPositive(c.file);
    }
    var a := LockstepReached(c, n - 1);
    var y1, b := Overshoots(c, After(c, Start(), a));
    ComposeAtStart(c, a, b);
    var m := if c.mode == Basic then n else n - 1;
    BasesOrdered(c, y1);
    LastAckRead(c, y1, m);
    var e := Round(Event(Receiver.AckMessage(m), false));
    var y2 := Apply(c, y1, e);
    BasesOrdered(c, y2);
    OneMore(c, Start(), a + b, e);
    EndSent(c, y2);
    OneMore(c, Start(), a + b + [e], Terminate);
    y := Apply(c, y2, Terminate);
    assert After(c, Start(), a + b + [e] + [Terminate]) == y;
  }

  /** END and its ACK carry the same number in every run if and only if the window is 1. */
  lemma EndAckNumber(c: Session)
    requires Fits(c)
    ensures EndAcksMatch(c) <==> c.window == 1
  {
    hide Reachable, Inv, EndAnswer, Receiver.AckMessage, Segments.Count;
    if c.window == 1 {
      forall y | Reachable(c, y) && EndDue(y)
        ensures EndAnswer(c, y) == [Receiver.AckMessage(y.sender.base)]
      {
        ReachableInv(c, y);
        EndAnswerIs(c, y);
        BothAtCount(c, y);
      }
    } else {
      var y := EndAckOvershoots(c);
      ReachableInv(c, y);
      EndAnswerIs(c, y);
      BelowCached(c, y);
    }
  }

  lemma BothAtCount(c: Session, y: System)
    requires Fits(c) && Inv(c, y) && c.window == 1 && y.closed
    ensures y.sender.base == y.receiver.base
  {
    hide DataInv, AckInv, EndMessage, DataMessage;
  }

  lemma BelowCached(c: Session, y: System)
    requires Fits(c) && Inv(c, y) && y.sender.base < y.receiver.base
    ensures y.sender.base < |y.receiver.cached| && y.receiver.cached[y.sender.base]
  {
    hide DataInv, AckInv, EndMessage, DataMessage;
  }
}
