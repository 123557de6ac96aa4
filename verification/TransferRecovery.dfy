/** Progress in every run, whatever happens between the steps that matter: when the timer expires and
    the sender goes through its loop again, it resends the segment at send_base, and when that is
    delivered and answered, send_base moves. */
module TransferRecovery {
  import opened Words
  import opened Rtp
  import opened Sender
  import opened Transfer
  import opened TransferSafety
  import opened TransferBounds
  import opened TransferProgress
  import Receiver
  import Segments

  // ----- the states of a run -----

  /** The state after the first `n` steps of `run`. */
  function At(c: Session, y: System, run: seq<Step>, n: nat): (y': System)
    requires Receiver.Sized(y.receiver) && Possible(c, y, run) && n <= |run|
    ensures Receiver.Sized(y'.receiver)
    decreases |run|
  {
    if n == 0 then y else At(c, Apply(c, y, run[0]), run[1..], n - 1)
  }

  lemma {:induction false} AtNext(c: Session, y: System, run: seq<Step>, n: nat)
    requires Receiver.Sized(y.receiver) && Possible(c, y, run) && n < |run|
    ensures Enabled(c, At(c, y, run, n), run[n])
    ensures At(c, y, run, n + 1) == Apply(c, At(c, y, run, n), run[n])
    decreases |run|
  {
    hide Enabled, Apply;
    if n > 0 {
      AtNext(c, Apply(c, y, run[0]), run[1..], n - 1);
    }
  }

  lemma {:induction false} AtEnd(c: Session, y: System, run: seq<Step>)
    requires Receiver.Sized(y.receiver) && Possible(c, y, run)
    ensures At(c, y, run, |run|) == After(c, y, run)
    decreases |run|
  {
    hide Enabled, Apply;
    if run != [] {
      AtEnd(c, Apply(c, y, run[0]), run[1..]);
    }
  }

  lemma {:induction false} InvAt(c: Session, y: System, run: seq<Step>, n: nat)
    requires Fits(c) && Inv(c, y) && Receiver.Sized(y.receiver) && Possible(c, y, run) && n <= |run|
    ensures Inv(c, At(c, y, run, n))
    decreases |run|
  {
    hide Enabled, Apply, Inv;
    if n > 0 {
      StepKeeps(c, y, run[0]);
      InvAt(c, Apply(c, y, run[0]), run[1..], n - 1);
    }
  }

  /** What no step takes back. */
  predicate Grows(y: System, y': System) {
    y.sender.base <= y'.sender.base && y.data <= y'.data && y.acks <= y'.acks && (y.closed ==> y'.closed)
  }

  lemma StepGrows(c: Session, y: System, step: Step)
    requires Fits(c) && Inv(c, y) && Receiver.Sized(y.receiver) && Enabled(c, y, step)
    ensures Grows(y, Apply(c, y, step))
  {
    hide Inv, Iterate, ReadPacket, Receiver.Handle, Receiver.Replies, EndMessage;
    if step.Round? {
      RoundAdvances(c, y, step.event);
    }
  }

  lemma {:induction false} GrowsTo(c: Session, y: System, run: seq<Step>, m: nat, n: nat)
    requires Fits(c) && Inv(c, y) && Receiver.Sized(y.receiver) && Possible(c, y, run) && m <= n <= |run|
    ensures Grows(At(c, y, run, m), At(c, y, run, n))
    decreases n
  {
    hide Inv, Enabled, Apply, Possible, At;
    if m < n {
      GrowsTo(c, y, run, m, n - 1);
      AtNext(c, y, run, n - 1);
      InvAt(c, y, run, n - 1);
      StepGrows(c, At(c, y, run, n - 1), run[n - 1]);
    }
  }

  // ----- after a timeout the segment at send_base is sent again -----

  /** The round at position `k` sends segment `b`. */
  predicate Sends(c: Session, y: System, run: seq<Step>, k: nat, b: nat)
    requires Receiver.Sized(y.receiver) && Possible(c, y, run) && k < |run|
  {
    run[k].Round? && DataMessage(c.file, b) in Iterate(c, At(c, y, run, k).sender, run[k].event).1
  }

  /** One of the rounds at positions `m` to `n` sends segment `b`. */
  ghost predicate SendsWithin(c: Session, y: System, run: seq<Step>, m: nat, n: nat, b: nat)
    requires Receiver.Sized(y.receiver) && Possible(c, y, run) && n < |run|
  {
    exists k :: m <= k <= n && Sends(c, y, run, k, b)
  }

  lemma SentIsInFlight(c: Session, y: System, e: Event, d: Datagram)
    requires Receiver.Sized(y.receiver) && Enabled(c, y, Round(e)) && d in Iterate(c, y.sender, e).1
    ensures d in Apply(c, y, Round(e)).data
  {
    hide Iterate;
  }

  /** Opt resends in the round of the timeout itself, unless an ACK read in it moves send_base. */
  lemma TimeoutSends(c: Session, y: System, e: Event)
    requires Fits(c) && Inv(c, y) && Enabled(c, y, Round(e)) && e.timeout && c.mode == Opt
    ensures Apply(c, y, Round(e)).sender.base > y.sender.base
         || DataMessage(c.file, y.sender.base) in Iterate(c, y.sender, e).1
  {
    hide Inv, Transmit, Absorb, DataMessage, Resend, Segments.Count;
    RoundAdvances(c, y, e);
    var b, y1 := y.sender.base, TransmitStep(c, y);
    TransmitKeeps(c, y);
    AbsorbKeeps(c, y1, e.message);
    var s := AbsorbStep(c, y1, e.message).sender;
    AbsorbArmed(c, y1.sender, e.message);
    TransmitPasses(c, y);
    SenderRange(c, AbsorbStep(c, y1, e.message));
    if s.base == b {
      ResendIsOriginal(c.file, s.acked, s.base, s.next, DataMessage(c.file, b));
    }
  }

  lemma AbsorbArmed(c: Session, s: Sender.State, message: Datagram)
    ensures var s' := Absorb(c, s, message); s'.armed == s.armed && s'.next == s.next
  {
    hide Acks, RaiseBase, Mark, Slide;
  }

  lemma TransmitPasses(c: Session, y: System)
    requires Fits(c) && Inv(c, y) && c.mode == Opt
    ensures y.sender.base < Transmit(c, y.sender).0.next
  {
    hide DataInv, AckInv, ReceiverInv, DataMessage;
  }

  lemma SenderRange(c: Session, y: System)
    requires Fits(c) && Inv(c, y)
    ensures y.sender.next <= |y.sender.acked|
    ensures c.mode == Opt ==> y.sender.base < |y.sender.acked| && !y.sender.acked[y.sender.base]
  {
    hide DataInv, AckInv, DataMessage;
  }

  /** Basic: send_base has passed `b`, or the next round starts there. */
  predicate Restarts(s: Sender.State, b: nat) {
    s.base > b || s.next == s.base == b
  }

  lemma TimeoutRestarts(c: Session, y: System, e: Event)
    requires Fits(c) && Inv(c, y) && Enabled(c, y, Round(e)) && e.timeout && c.mode == Basic
    ensures Restarts(Apply(c, y, Round(e)).sender, y.sender.base)
  {
    hide Inv, Iterate, Absorb, Transmit, Segments.Count, DataMessage;
    RoundInParts(c, y, e);
    RoundAdvances(c, y, e);
    TransmitKeeps(c, y);
    AbsorbArmed(c, TransmitStep(c, y).sender, e.message);
  }

  lemma RestartSends(c: Session, y: System, b: nat, e: Event)
    requires Fits(c) && Inv(c, y) && Enabled(c, y, Round(e)) && c.mode == Basic && y.sender.next == y.sender.base == b
    ensures DataMessage(c.file, b) in Iterate(c, y.sender, e).1
  {
    hide DataInv, AckInv, ReceiverInv, DataMessage, Absorb;
  }

  /** The first round after the restart sends the segment. */
  lemma {:induction false} RestartIsSent(c: Session, y: System, run: seq<Step>, m: nat, n: nat, b: nat)
    requires Fits(c) && Inv(c, y) && Receiver.Sized(y.receiver) && Possible(c, y, run) && c.mode == Basic
    requires m <= n < |run| && run[n].Round? && Restarts(At(c, y, run, m).sender, b)
    ensures At(c, y, run, n + 1).sender.base > b || SendsWithin(c, y, run, m, n, b)
    decreases n - m
  {
    hide Inv, Apply, Possible, At, DataMessage, Iterate, Segments.Count;
    AtNext(c, y, run, m);
    InvAt(c, y, run, m);
    GrowsTo(c, y, run, m, n + 1);
    if At(c, y, run, m).sender.base <= b {
      if run[m].Round? {
        RestartSends(c, At(c, y, run, m), b, run[m].event);
        assert Sends(c, y, run, m, b);
      } else {
        OtherSteps(c, At(c, y, run, m), run[m]);
        RestartIsSent(c, y, run, m + 1, n, b);
      }
    }
  }

  /** In every run: from a round with a timeout to any later round, whatever comes in between, the
      sender sends the segment at send_base again, or send_base moves. */
  lemma TimeoutResends(c: Session, y: System, run: seq<Step>, m: nat, n: nat)
    requires Fits(c) && Inv(c, y) && Receiver.Sized(y.receiver) && Possible(c, y, run) && m < n < |run|
    requires run[m].Round? && run[m].event.timeout && run[n].Round?
    ensures var b := At(c, y, run, m).sender.base;
      || At(c, y, run, n + 1).sender.base > b
      || (SendsWithin(c, y, run, m, n, b) && DataMessage(c.file, b) in At(c, y, run, n + 1).data)
  {
    hide Inv, Apply, Possible, At, DataMessage, Iterate, Enabled;
    var b := At(c, y, run, m).sender.base;
    AtNext(c, y, run, m);
    InvAt(c, y, run, m);
    GrowsTo(c, y, run, m + 1, n + 1);
    match c.mode {
      case Basic =>
        TimeoutRestarts(c, At(c, y, run, m), run[m].event);
        RestartIsSent(c, y, run, m + 1, n, b);
      case Opt =>
        TimeoutSends(c, At(c, y, run, m), run[m].event);
        assert At(c, y, run, n + 1).sender.base <= b ==> Sends(c, y, run, m, b);
    }
    if SendsWithin(c, y, run, m, n, b) {
      var k :| m <= k <= n && Sends(c, y, run, k, b);
      AtNext(c, y, run, k);
      SentIsInFlight(c, At(c, y, run, k), run[k].event, DataMessage(c.file, b));
      GrowsTo(c, y, run, k + 1, n + 1);
    }
  }

  // ----- the ACK of that segment moves send_base, however late it is read -----

  /** What the receiver sends when it is handed segment `b`. */
  function Answers(c: Session, r: Receiver.State, b: nat): seq<Datagram>
    requires Receiver.Sized(r)
  {
    var d := DataMessage(c.file, b);
    if |d| <= PACKET_SIZE then Receiver.Replies(c.mode, c.window, r, ReadPacket(d)) else []
  }

  lemma AnswerIs(c: Session, r: Receiver.State, b: nat)
    requires Receiver.Sized(r) && b < U32
    ensures var d := DataMessage(c.file, b);
      && |d| <= PACKET_SIZE
      && Answers(c, r, b) == [Receiver.AckMessage(Answer(c, b, Receiver.Handle(c.window, r, ReadPacket(d))))]
  {
    hide DataMessage, ReadPacket, Receiver.Handle, Receiver.AckMessage, Carries, Receiver.IntactData, Receiver.Closes;
    SentData(c.file, b);
    DataShape(r, DataMessage(c.file, b), b, Segments.Read(c.file, b));
  }

  /** In every run: when the segment at send_base has been delivered, any later round that reads the
      ACK sent for it leaves send_base past that segment. */
  lemma AnswerMovesBase(c: Session, y: System, run: seq<Step>, k: nat, l: nat)
    requires Fits(c) && Inv(c, y) && Receiver.Sized(y.receiver) && Possible(c, y, run) && k < l < |run|
    requires run[k] == Deliver(DataMessage(c.file, At(c, y, run, k).sender.base))
    requires run[l].Round?
    requires run[l].event.message in Answers(c, At(c, y, run, k).receiver, At(c, y, run, k).sender.base)
    ensures At(c, y, run, k).sender.base < At(c, y, run, l + 1).sender.base
  {
    hide Inv, Apply, Possible, At, DataMessage, Answers, ReadPacket, Receiver.Handle, Receiver.AckMessage, Limit;
    var y1, y2 := At(c, y, run, k), At(c, y, run, l);
    var b := y1.sender.base;
    AtNext(c, y, run, k);
    AtNext(c, y, run, l);
    InvAt(c, y, run, k);
    InvAt(c, y, run, l);
    GrowsTo(c, y, run, k, l);
    GrowsTo(c, y, run, l, l + 1);
    if y2.sender.base == b {
      BasesOrdered(c, y1);
      AnswerIs(c, y1.receiver, b);
      SegmentArrives(c, y1);
      DeliverReceiver(c, y1, DataMessage(c.file, b));
      AckArrives(c, y2, Answer(c, b, At(c, y, run, k + 1).receiver), run[l].event);
    }
  }

  lemma DeliverReceiver(c: Session, y: System, d: Datagram)
    requires Receiver.Sized(y.receiver) && Enabled(c, y, Deliver(d))
    ensures |d| <= PACKET_SIZE
    ensures Apply(c, y, Deliver(d)).receiver == Receiver.Handle(c.window, y.receiver, ReadPacket(d))
  {
    hide ReadPacket, Receiver.Handle, Receiver.Replies;
  }

  // ----- any run with enough recoveries -----

  /** Positions in a run: a timeout, a later round, the arrival of the segment and of its answer. */
  datatype Recovery = Recovery(timeout: nat, resend: nat, arrival: nat, answer: nat)

  /** A timeout followed by a round without loss: the timer expires in one round, there is another
      round, and if the segment at which send_base stood has been sent in them, it is delivered and a
      later round reads the ACK sent for it. Anything may happen in between. */
  ghost predicate Recovers(c: Session, y: System, run: seq<Step>, r: Recovery)
    requires Receiver.Sized(y.receiver) && Possible(c, y, run)
  {
    && r.timeout < r.resend < r.arrival < r.answer < |run|
    && run[r.timeout].Round? && run[r.timeout].event.timeout && run[r.resend].Round?
    && var b := At(c, y, run, r.timeout).sender.base;
       SendsWithin(c, y, run, r.timeout, r.resend, b) ==> Answered(c, y, run, r, b)
  }

  /** Segment `b` arrives, and a later round reads what the receiver sent for it. */
  predicate Answered(c: Session, y: System, run: seq<Step>, r: Recovery, b: nat)
    requires Receiver.Sized(y.receiver) && Possible(c, y, run) && r.arrival < r.answer < |run|
  {
    && run[r.arrival] == Deliver(DataMessage(c.file, b))
    && run[r.answer].Round?
    && run[r.answer].event.message in Answers(c, At(c, y, run, r.arrival).receiver, b)
  }

  /** The recoveries `rs` happen in `run` one after the other. */
  ghost predicate RecoversInTurn(c: Session, y: System, run: seq<Step>, rs: seq<Recovery>)
    requires Receiver.Sized(y.receiver) && Possible(c, y, run)
  {
    && (forall i :: 0 <= i < |rs| ==> Recovers(c, y, run, rs[i]))
    && (forall i :: 1 <= i < |rs| ==> rs[i - 1].answer < rs[i].timeout)
  }

  /** One recovery moves send_base. */
  lemma RecoveryMovesBase(c: Session, y: System, run: seq<Step>, r: Recovery)
    requires Fits(c) && Inv(c, y) && Receiver.Sized(y.receiver) && Possible(c, y, run) && Recovers(c, y, run, r)
    ensures At(c, y, run, r.timeout).sender.base < At(c, y, run, r.answer + 1).sender.base
    ensures At(c, y, run, r.timeout).sender.base < Segments.Count(c.file)
  {
    hide Inv, Apply, Possible, At, DataMessage, Answers, SendsWithin, Segments.Count;
    var b := At(c, y, run, r.timeout).sender.base;
    AtNext(c, y, run, r.timeout);
    TimeoutResends(c, y, run, r.timeout, r.resend);
    GrowsTo(c, y, run, r.timeout, r.arrival);
    GrowsTo(c, y, run, r.resend + 1, r.answer + 1);
    GrowsTo(c, y, run, r.arrival, r.answer + 1);
    GrowsTo(c, y, run, r.timeout, r.resend + 1);
    if At(c, y, run, r.resend + 1).sender.base == b && At(c, y, run, r.arrival).sender.base == b {
      assert Answered(c, y, run, r, b);
      AnswerMovesBase(c, y, run, r.arrival, r.answer);
    }
  }

  /** In every run, from any reachable state, each recovery moves send_base by at least one, and
      there can be no more of them than there are unacknowledged segments. */
  lemma {:induction false} RecoveriesMoveBase(c: Session, y: System, run: seq<Step>, rs: seq<Recovery>)
    requires Fits(c) && Inv(c, y) && Receiver.Sized(y.receiver) && Possible(c, y, run)
    requires RecoversInTurn(c, y, run, rs) && rs != []
    ensures y.sender.base + |rs| <= At(c, y, run, rs[|rs| - 1].answer + 1).sender.base
    ensures y.sender.base + |rs| <= Segments.Count(c.file)
    decreases |rs|
  {
    hide Inv, Possible, At, Recovers, Segments.Count;
    var last := rs[|rs| - 1];
    assert Recovers(c, y, run, last);
    Positions(c, y, run, last);
    RecoveryMovesBase(c, y, run, last);
    if |rs| == 1 {
      AtStart(c, y, run);
      GrowsTo(c, y, run, 0, last.timeout);
    } else {
      var init := rs[..|rs| - 1];
      assert rs[|init| - 1].answer < rs[|init|].timeout;
      RecoveriesMoveBase(c, y, run, init);
      GrowsTo(c, y, run, init[|init| - 1].answer + 1, last.timeout);
    }
  }

  lemma Positions(c: Session, y: System, run: seq<Step>, r: Recovery)
    requires Receiver.Sized(y.receiver) && Possible(c, y, run) && Recovers(c, y, run, r)
    ensures r.timeout < r.resend < r.arrival < r.answer < |run|
  {
    hide Possible, At, Answered;
  }

  lemma AtStart(c: Session, y: System, run: seq<Step>)
    requires Receiver.Sized(y.receiver) && Possible(c, y, run)
    ensures At(c, y, run, 0) == y
  {
  }

  /** So any run with as many recoveries as segments are missing finishes the sender's loop, and then
      the receiver has written the whole file; fewer still move send_base that far. */
  lemma Completes(c: Session, before: seq<Step>, run: seq<Step>, rs: seq<Recovery>)
    requires Fits(c) && Possible(c, Start(), before) && Possible(c, After(c, Start(), before), run)
    requires RecoversInTurn(c, After(c, Start(), before), run, rs)
    ensures var y, y' := After(c, Start(), before), After(c, After(c, Start(), before), run);
      && y'.sender.base >= y.sender.base + |rs| && |rs| <= Remaining(c, y.sender)
      && (|rs| == Remaining(c, y.sender) ==> Finished(c, y'.sender) && y'.receiver.output == c.file)
  {
    hide Start, Possible, After, At, Inv, RecoversInTurn, Segments.Count;
    StartSized();
    InvAtStart(c);
    RunKeeps(c, Start(), before);
    var y := After(c, Start(), before);
    AtEnd(c, y, run);
    AtStart(c, y, run);
    if rs == [] {
      GrowsTo(c, y, run, 0, |run|);
    } else {
      RecoveriesMoveBase(c, y, run, rs);
      InTurn(c, y, run, rs, |rs| - 1);
      GrowsTo(c, y, run, rs[|rs| - 1].answer + 1, |run|);
    }
    ComposeAtStart(c, before, run);
    if Finished(c, After(c, y, run).sender) {
      FinishedMeansDelivered(c, before + run);
    }
  }

  lemma InTurn(c: Session, y: System, run: seq<Step>, rs: seq<Recovery>, i: nat)
    requires Receiver.Sized(y.receiver) && Possible(c, y, run) && RecoversInTurn(c, y, run, rs) && i < |rs|
    ensures rs[i].timeout < rs[i].resend < rs[i].arrival < rs[i].answer < |run|
  {
    hide Possible, Recovers;
    Positions(c, y, run, rs[i]);
  }

  // ----- recoveries are always possible -----

  /** In every state of an unfinished transfer the next four steps can be a recovery. */
  lemma CanRecover(c: Session, y: System) returns (run: seq<Step>)
    requires Fits(c) && Inv(c, y) && Receiver.Sized(y.receiver) && !y.closed && !Finished(c, y.sender)
    ensures |run| == 4 && Possible(c, y, run) && Recovers(c, y, run, Recovery(0, 1, 2, 3))
    ensures Inv(c, After(c, y, run)) && !After(c, y, run).closed && y.sender.base < After(c, y, run).sender.base
  {
    hide Inv, Enabled, Apply, DataMessage, Receiver.AckMessage, Segments.Count, Quiet, Limit, Answers, Possible, At,
      After, Receiver.Handle, ReadPacket;
    BasesOrdered(c, y);
    var b := y.sender.base;
    QuietRound(c, y, true);
    var y1 := Apply(c, y, Quiet(true));
    QuietRound(c, y1, false);
    var y2 := Apply(c, y1, Quiet(false));
    SegmentArrives(c, y2);
    var d := DataMessage(c.file, b);
    var y3 := Apply(c, y2, Deliver(d));
    var n := Answer(c, b, y3.receiver);
    AnswerRound(c, y3, n);
    var e := Round(Event(Receiver.AckMessage(n), false));
    run := [Quiet(true), Quiet(false), Deliver(d), e];
    FourSteps(c, y, Quiet(true), y1, Quiet(false), y2, Deliver(d), y3, e);
    FourStates(c, y, run);
    AnswerIs(c, y2.receiver, b);
    DeliverReceiver(c, y2, d);
    QuietIsRound();
    assert Answered(c, y, run, Recovery(0, 1, 2, 3), b);
  }

  lemma QuietIsRound()
    ensures Quiet(true).Round? && Quiet(true).event.timeout && Quiet(false).Round?
  {
  }

  lemma FourStates(c: Session, y: System, run: seq<Step>)
    requires Receiver.Sized(y.receiver) && |run| == 4 && Possible(c, y, run)
    ensures Enabled(c, y, run[0])
    ensures At(c, y, run, 0) == y && At(c, y, run, 1) == Apply(c, y, run[0])
    ensures Enabled(c, At(c, y, run, 1), run[1]) && At(c, y, run, 2) == Apply(c, At(c, y, run, 1), run[1])
  {
    hide Enabled, Apply, At, Possible;
    AtStart(c, y, run);
    AtNext(c, y, run, 0);
    AtNext(c, y, run, 1);
  }

  /** From every state, at most one recovery a segment, and the END, deliver the whole file. */
  lemma CanComplete(c: Session, y: System) returns (run: seq<Step>)
    requires Fits(c) && Inv(c, y)
    ensures Possible(c, y, run) && Inv(c, After(c, y, run)) && After(c, y, run).receiver.done
    ensures |run| <= 4 * Remaining(c, y.sender) + 2
    decreases Remaining(c, y.sender)
  {
    hide Possible, After, Inv, Finished, Remaining, Fits;
    if Finished(c, y.sender) {
      run := CanClose(c, y);
    } else {
      BasesOrdered(c, y);
      ClosedIsFinished(c, y);
      var first := CanRecover(c, y);
      var m := After(c, y, first);
      RemainingShrinks(c, y.sender, m.sender);
      var rest := CanComplete(c, m);
      JoinRuns(c, y, first, rest);
      run := first + rest;
    }
  }

  /** However a run went, it can still be continued to the complete delivery of the file. */
  lemma NeverStuck(c: Session, run: seq<Step>) returns (more: seq<Step>)
    requires Fits(c) && Possible(c, Start(), run)
    ensures Possible(c, Start(), run + more)
    ensures var y := After(c, Start(), run + more); y.receiver.done && y.receiver.output == c.file
    ensures |more| <= 4 * Remaining(c, After(c, Start(), run).sender) + 2
  {
    hide Start, Enabled, Apply, Inv;
    StartSized();
    InvAtStart(c);
    RunKeeps(c, Start(), run);
    more := CanComplete(c, After(c, Start(), run));
    RunsCompose(c, Start(), run, more);
    OutputIsFile(c, run + more);
  }
}
