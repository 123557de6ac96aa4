/** From every reachable state the transfer can be completed, with a bounded number of steps. */
module TransferProgress {
  import opened Words
  import opened Rtp
  import opened Sender
  import opened Transfer
  import opened TransferSafety
  import Receiver
  import Segments

  lemma {:induction false} RunsCompose(c: Session, y: System, a: seq<Step>, b: seq<Step>)
    requires Receiver.Sized(y.receiver) && Possible(c, y, a) && Possible(c, After(c, y, a), b)
    ensures Possible(c, y, a + b) && After(c, y, a + b) == After(c, After(c, y, a), b)
    decreases |a|
  {
    hide Enabled, Apply;
    if a == [] {
      assert a + b == b;
    } else {
      assert (a + b)[1..] == a[1..] + b;
      RunsCompose(c, Apply(c, y, a[0]), a[1..], b);
    }
  }

  lemma ComposeAtStart(c: Session, a: seq<Step>, b: seq<Step>)
    requires Fits(c) && Possible(c, Start(), a) && Possible(c, After(c, Start(), a), b)
    ensures Possible(c, Start(), a + b) && After(c, Start(), a + b) == After(c, After(c, Start(), a), b)
  {
    hide Enabled, Apply;
    RunsCompose(c, Start(), a, b);
  }

  /** A run is possible exactly when it is up to its last step and that step can then be taken. */
  lemma {:induction false} LastStep(c: Session, y: System, run: seq<Step>)
    requires Receiver.Sized(y.receiver) && Possible(c, y, run) && run != []
    ensures var init := run[..|run| - 1];
      && Possible(c, y, init) && Enabled(c, After(c, y, init), run[|run| - 1])
      && After(c, y, run) == Apply(c, After(c, y, init), run[|run| - 1])
    decreases |run|
  {
    hide Enabled, Apply;
    if |run| == 1 {
      assert run[..0] == [];
      assert After(c, Apply(c, y, run[0]), run[1..]) == Apply(c, y, run[0]);
    } else {
      var init := run[..|run| - 1];
      LastStep(c, Apply(c, y, run[0]), run[1..]);
      assert run[1..][..|run| - 2] == init[1..];
    }
  }

  lemma OneMore(c: Session, y: System, run: seq<Step>, step: Step)
    requires Receiver.Sized(y.receiver) && Possible(c, y, run) && Enabled(c, After(c, y, run), step)
    ensures Possible(c, y, run + [step]) && After(c, y, run + [step]) == Apply(c, After(c, y, run), step)
  {
    hide Enabled, Apply;
    assert [step][1..] == [];
    var m := After(c, y, run);
    assert Possible(c, Apply(c, m, step), []);
    assert Possible(c, m, [step]) && After(c, m, [step]) == Apply(c, m, step);
    RunsCompose(c, y, run, [step]);
  }

  lemma OtherSteps(c: Session, y: System, step: Step)
    requires Receiver.Sized(y.receiver) && Enabled(c, y, step)
    ensures !step.Round? ==> Apply(c, y, step).sender == y.sender
    ensures !step.Deliver? ==> Apply(c, y, step).receiver == y.receiver
    ensures step.Round? ==> Apply(c, y, step).acks == y.acks
  {
    hide EndMessage, ReadPacket, Iterate;
  }

  /** A round in which nothing is read leaves send_base where it is. */
  lemma AbsorbNothing(c: Session, y: System)
    requires Fits(c) && Inv(c, y)
    ensures AbsorbStep(c, y, []) == y
  {
    hide DataInv, AckInv, ReceiverInv, Backed, DataMessage;
    assert Acks([]) == [];
  }

  /** A round that reads nothing. After a timeout Basic restarts at send_base; in Opt, and in Basic
      when it stands at send_base, the segment there is in flight after the round. */
  lemma QuietRound(c: Session, y: System, timeout: bool)
    requires Fits(c) && Inv(c, y) && !y.closed && !Finished(c, y.sender)
    ensures Enabled(c, y, Quiet(timeout))
    ensures var y' := Apply(c, y, Quiet(timeout));
      && Inv(c, y') && y'.sender.base == y.sender.base && !y'.closed
      && (timeout && c.mode == Basic ==> y'.sender.next == y'.sender.base)
      && (c.mode == Opt || y.sender.next == y.sender.base ==> DataMessage(c.file, y.sender.base) in y'.data)
  {
    hide Transmit, Iterate, DataMessage, Resend, Inv, Segments.Count;
    QuietRoundShape(c, y, timeout);
    RoundKeeps(c, y, Event([], timeout));
    TransmitKeeps(c, y);
    QuietTransmit(c, y);
  }

  function Quiet(timeout: bool): Step {
    Round(Event([], timeout))
  }

  lemma QuietRoundShape(c: Session, y: System, timeout: bool)
    requires Fits(c) && Inv(c, y) && !y.closed && !Finished(c, y.sender)
    ensures Enabled(c, y, Quiet(timeout))
    ensures Apply(c, y, Quiet(timeout)) == TickStep(c, TransmitStep(c, y), timeout)
  {
    TransmitKeeps(c, y);
    hide Inv, Iterate, TransmitStep, AbsorbStep, TickStep;
    AbsorbNothing(c, TransmitStep(c, y));
    RoundInParts(c, y, Event([], timeout));
  }

  lemma QuietTransmit(c: Session, y: System)
    requires Fits(c) && Inv(c, y) && !y.closed && !Finished(c, y.sender)
    ensures var y1 := TransmitStep(c, y);
      && y1.sender.base == y.sender.base && y1.closed == y.closed
      && (c.mode == Opt || y.sender.next == y.sender.base ==> DataMessage(c.file, y.sender.base) in y1.data)
  {
    hide DataMessage, DataInv, ReceiverInv, AckInv;
  }

  /** The ACK that answers the segment at send_base: its own number, or what the receiver now expects. */
  function Answer(c: Session, base: nat, r: Receiver.State): nat {
    match c.mode
    case Basic => r.base
    case Opt => base
  }

  lemma DataShape(r: Receiver.State, d: Datagram, q: nat, content: seq<bv8>)
    requires Carries(d, DATA, q, content)
    ensures |d| <= PACKET_SIZE
    ensures var p := ReadPacket(d); Receiver.IntactData(p) && !Receiver.Closes(r, p) && p.rtp.seqNum == q
  {
    hide ReadPacket, PacketIntact, Content;
  }

  lemma CachedIsPassed(c: Session, y: System, q: nat)
    requires Fits(c) && Inv(c, y) && q <= y.receiver.base && Backed(Opt, y.receiver, q)
    ensures q < y.receiver.base
  {
    hide DataInv, AckInv, SenderInv;
  }

  lemma BasesOrdered(c: Session, y: System)
    requires Fits(c) && Inv(c, y)
    ensures y.sender.base <= y.receiver.base <= Limit(c) && Limit(c) < U32
    ensures Receiver.Sized(y.receiver) && (y.receiver.done ==> y.closed)
  {
    hide DataInv, AckInv, DataMessage;
  }

  /** The segment at send_base reaches the receiver, which then expects a later one. */
  lemma SegmentArrives(c: Session, y: System)
    requires Fits(c) && Inv(c, y) && !y.closed && DataMessage(c.file, y.sender.base) in y.data
    ensures Enabled(c, y, Deliver(DataMessage(c.file, y.sender.base)))
    ensures var y' := Apply(c, y, Deliver(DataMessage(c.file, y.sender.base)));
      && Inv(c, y') && y'.sender == y.sender && !y'.closed && y.sender.base < y'.receiver.base <= Limit(c)
      && Receiver.AckMessage(Answer(c, y.sender.base, y'.receiver)) in y'.acks
  {
    hide DataMessage, ReadPacket, Receiver.AckMessage, Inv, Carries, Receiver.IntactData, Receiver.Closes,
      Receiver.Handle, Genuine, DeliverStep, Backed, Limit;
    var d, b := DataMessage(c.file, y.sender.base), y.sender.base;
    BasesOrdered(c, y);
    SentData(c.file, b);
    DataShape(y.receiver, d, b, Segments.Read(c.file, b));
    GenuineInFlight(c, y, d);
    HandleKeeps(c, y, ReadPacket(d));
    DeliverKeeps(c, y, d);
    DeliverShape(c, y, d);
    CachedIsPassed(c, y.(receiver := Receiver.Handle(c.window, y.receiver, ReadPacket(d))), b);
  }

  /** Reading that ACK moves send_base, whether or not the round also ends in a timeout. */
  lemma AckArrives(c: Session, y: System, n: nat, e: Event)
    requires Fits(c) && Inv(c, y) && Enabled(c, y, Round(e))
    requires e.message == Receiver.AckMessage(n) && n <= Limit(c)
    requires if c.mode == Basic then y.sender.base < n else n == y.sender.base
    ensures y.sender.base < Apply(c, y, Round(e)).sender.base
  {
    hide Receiver.AckMessage, Acks, Inv, Iterate, DataMessage, Segments.Count, Mark, RaiseBase, Slide, Transmit, Resend;
    RoundInParts(c, y, e);
    TransmitKeeps(c, y);
    SentAck(n);
    var s := TransmitStep(c, y).sender;
    TransmitBase(c, y.sender);
    RaiseBaseIsMax(s.base, [n]);
    SenderSized(c, TransmitStep(c, y));
    MarkIsUnion(s.acked, [n], s.base);
    assert [n][0] in [n];
    assert s.base < AbsorbStep(c, TransmitStep(c, y), e.message).sender.base;
  }

  lemma AnswerRound(c: Session, y: System, n: nat)
    requires Fits(c) && Inv(c, y) && !y.closed && !Finished(c, y.sender)
    requires Receiver.AckMessage(n) in y.acks && n <= Limit(c)
    requires if c.mode == Basic then y.sender.base < n else n == y.sender.base
    ensures Enabled(c, y, Round(Event(Receiver.AckMessage(n), false)))
    ensures var y' := Apply(c, y, Round(Event(Receiver.AckMessage(n), false)));
      Inv(c, y') && y.sender.base < y'.sender.base && !y'.closed
  {
    hide Receiver.AckMessage, Inv, Iterate, Segments.Count;
    var e := Event(Receiver.AckMessage(n), false);
    RoundKeeps(c, y, e);
    AckArrives(c, y, n, e);
  }

  lemma SenderSized(c: Session, y: System)
    requires Fits(c) && Inv(c, y)
    ensures |y.sender.acked| == ACKED_SIZE && y.sender.base < ACKED_SIZE
  {
    hide DataInv, AckInv, DataMessage;
  }

  lemma TransmitBase(c: Session, s: Sender.State)
    ensures Transmit(c, s).0.base == s.base
  {
    hide DataMessage;
  }

  lemma FourSteps(c: Session, y: System, s1: Step, y1: System, s2: Step, y2: System, s3: Step, y3: System, s4: Step)
    requires Receiver.Sized(y.receiver) && Enabled(c, y, s1) && y1 == Apply(c, y, s1)
    requires Enabled(c, y1, s2) && y2 == Apply(c, y1, s2)
    requires Enabled(c, y2, s3) && y3 == Apply(c, y2, s3) && Enabled(c, y3, s4)
    ensures Possible(c, y, [s1, s2, s3, s4]) && After(c, y, [s1, s2, s3, s4]) == Apply(c, y3, s4)
  {
    hide Enabled, Apply;
    OneMore(c, y, [], s1);
    OneMore(c, y, [s1], s2);
    OneMore(c, y, [s1, s2], s3);
    OneMore(c, y, [s1, s2, s3], s4);
    assert [] + [s1] == [s1] && [s1] + [s2] == [s1, s2];
    assert [s1, s2] + [s3] == [s1, s2, s3] && [s1, s2, s3] + [s4] == [s1, s2, s3, s4];
  }

  lemma EndCloses(r: Receiver.State, d: Datagram, n: nat)
    requires Carries(d, END, n, []) && n <= r.base
    ensures |d| <= PACKET_SIZE && Receiver.Closes(r, ReadPacket(d))
  {
    hide ReadPacket, PacketIntact, Content;
  }

  lemma EndInFlight(c: Session, y: System)
    requires Fits(c) && Inv(c, y) && y.closed
    ensures EndMessage(y.sender.base) in y.data
  {
    hide DataInv, AckInv, ReceiverInv, DataMessage;
  }

  lemma EndShape(c: Session, y: System)
    requires Fits(c) && Inv(c, y) && y.closed && !y.receiver.done
    ensures Enabled(c, y, Deliver(EndMessage(y.sender.base)))
    ensures Apply(c, y, Deliver(EndMessage(y.sender.base))).receiver.done
  {
    hide ReadPacket, EndMessage, Inv, Carries, Receiver.Closes, Receiver.Replies, Genuine, Limit;
    BasesOrdered(c, y);
    EndInFlight(c, y);
    SentEnd(y.sender.base);
    GenuineInFlight(c, y, EndMessage(y.sender.base));
    EndCloses(y.receiver, EndMessage(y.sender.base), y.sender.base);
  }

  /** The end of a session whose data has all been acknowledged. */
  lemma CanClose(c: Session, y: System) returns (run: seq<Step>)
    requires Fits(c) && Inv(c, y) && Finished(c, y.sender)
    ensures Possible(c, y, run) && |run| <= 2 && Inv(c, After(c, y, run)) && After(c, y, run).receiver.done
  {
    hide DataInv, AckInv, SenderInv, EndMessage, Apply, Finished;
    run := [];
    var m := y;
    if !y.closed {
      OneMore(c, y, [], Terminate);
      TerminateKeeps(c, y);
      TerminateShape(c, y);
      run, m := [] + [Terminate], Apply(c, y, Terminate);
    }
    if !m.receiver.done {
      var d := Deliver(EndMessage(m.sender.base));
      EndShape(c, m);
      StepKeeps(c, m, d);
      OneMore(c, y, run, d);
      run := run + [d];
    }
  }

  lemma TerminateShape(c: Session, y: System)
    requires Receiver.Sized(y.receiver) && Enabled(c, y, Terminate)
    ensures Apply(c, y, Terminate).closed
  {
    hide EndMessage;
  }

  /** The segments still to be acknowledged. */
  function Remaining(c: Session, s: Sender.State): nat {
    if s.base < Segments.Count(c.file) then Segments.Count(c.file) - s.base else 0
  }

  lemma RemainingShrinks(c: Session, s: Sender.State, s': Sender.State)
    requires !Finished(c, s) && s.base < s'.base
    ensures Remaining(c, s') < Remaining(c, s)
  {
  }

  lemma JoinRuns(c: Session, y: System, a: seq<Step>, b: seq<Step>)
    requires Fits(c) && Inv(c, y) && Possible(c, y, a) && Inv(c, After(c, y, a)) && Possible(c, After(c, y, a), b)
    ensures Possible(c, y, a + b) && After(c, y, a + b) == After(c, After(c, y, a), b)
  {
    hide Enabled, Apply, DataInv, AckInv, SenderInv;
    RunsCompose(c, y, a, b);
  }

  lemma ClosedIsFinished(c: Session, y: System)
    requires Fits(c) && Inv(c, y) && !Finished(c, y.sender)
    ensures !y.closed
  {
    hide DataInv, AckInv, EndMessage, DataMessage;
  }
}
