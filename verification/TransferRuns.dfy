/** Particular runs, step by step; with them, when next_seq_num can fall behind send_base. */
module TransferRuns {
  import opened Words
  import opened Rtp
  import opened Sender
  import opened Transfer
  import opened TransferSafety
  import opened TransferBounds
  import opened TransferProgress
  import Receiver
  import Segments

  /** Storing and draining the expected packet when nothing later is cached. */
  lemma ExpectedPacket(window: nat, r: Receiver.State, p: Packet)
    requires Receiver.Sized(r) && Receiver.IntactData(p) && p.rtp.seqNum == r.base && !Receiver.Closes(r, p)
    requires 0 < window && r.base + window < U32 && r.base < Receiver.CACHE_SIZE
    requires forall q :: r.base <= q < |r.cached| ==> !r.cached[q]
    ensures var r' := Receiver.Handle(window, r, p);
      r'.base == r.base + 1 && forall q :: r'.base <= q < |r'.cached| ==> !r'.cached[q]
  {
    hide Content, PacketIntact;
    var stored := Receiver.Store(window, r, p);
    assert stored.cached[r.base];
    var next := stored.(base := r.base + 1, output := stored.output + Content(stored.cache[r.base]));
    assert Receiver.Drain(stored) == Receiver.Drain(next);
    assert Receiver.Drain(next) == next;
  }

  predicate NothingLater(r: Receiver.State) {
    forall q :: r.base <= q < |r.cached| ==> !r.cached[q]
  }

  /** The segment the receiver expects is delivered; its ACK is then in flight. */
  lemma DeliverExpected(c: Session, y: System, q: nat)
    requires Fits(c) && Inv(c, y) && !y.closed && DataMessage(c.file, q) in y.data
    requires y.receiver.base == q && NothingLater(y.receiver)
    ensures Enabled(c, y, Deliver(DataMessage(c.file, q)))
    ensures var y' := Apply(c, y, Deliver(DataMessage(c.file, q)));
      && Inv(c, y') && y'.sender == y.sender && y'.data == y.data && !y'.closed
      && y'.receiver.base == q + 1 && NothingLater(y'.receiver)
      && Receiver.AckMessage(if c.mode == Basic then q + 1 else q) in y'.acks && y.acks <= y'.acks
  {
    hide DataMessage, ReadPacket, Receiver.AckMessage, Inv, Carries, Receiver.IntactData, Receiver.Closes,
      Receiver.Handle, DeliverStep, Segments.Count, Genuine;
    BasesOrdered(c, y);
    var d := DataMessage(c.file, q);
    SentData(c.file, q);
    DataShape(y.receiver, d, q, Segments.Read(c.file, q));
    ExpectedPacket(c.window, y.receiver, ReadPacket(d));
    GenuineInFlight(c, y, d);
    DeliverKeeps(c, y, d);
    DeliverShape(c, y, d);
  }

  /** A round of an unfinished sender whose window is open sends the next segment. */
  lemma RoundSends(c: Session, y: System, e: Event)
    requires Fits(c) && Inv(c, y) && Enabled(c, y, Round(e)) && !e.timeout
    requires y.sender.base <= y.sender.next < y.sender.base + c.window
    ensures var y' := Apply(c, y, Round(e));
      && Inv(c, y') && !y'.closed && y'.sender.next == y.sender.next + 1 && y'.receiver == y.receiver
      && y'.acks == y.acks && y.data <= y'.data && DataMessage(c.file, y.sender.next) in y'.data
      && y'.sender.base == Absorb(c, y.sender, e.message).base
  {
    hide Inv, DataMessage, Iterate, Absorb, Segments.Count;
    RoundKeeps(c, y, e);
    BasesOrdered(c, y);
    IterateSends(c, y.sender, e);
  }

  lemma IterateSends(c: Session, st: Sender.State, e: Event)
    requires !e.timeout && st.base <= st.next < st.base + c.window && st.base + c.window < U32
    ensures var (st', out) := Iterate(c, st, e);
      st'.next == st.next + 1 && out == [DataMessage(c.file, st.next)] && st'.base == Absorb(c, st, e.message).base
  {
    hide DataMessage, Acks, RaiseBase, Mark, Slide, Segments.Count;
  }

  /** Reading one ACK, in terms of what it does to the sender. */
  lemma AckRound(c: Session, y: System, m: nat)
    requires Fits(c) && Inv(c, y) && !y.closed && !Finished(c, y.sender)
    requires Receiver.AckMessage(m) in y.acks && m < U32
    ensures Enabled(c, y, Round(Event(Receiver.AckMessage(m), false)))
    ensures var y' := Apply(c, y, Round(Event(Receiver.AckMessage(m), false)));
      && Inv(c, y') && !y'.closed && y'.acks == y.acks
      && (c.mode == Basic ==> y'.sender.base == RaiseBase(y.sender.base, [m]))
      && (c.mode == Opt ==> y'.sender.acked == Mark(y.sender.acked, [m]))
      && (c.mode == Opt ==> y'.sender.base == Slide(y'.sender.acked, y.sender.base))
  {
    hide Receiver.AckMessage, Acks, Inv, DataMessage, Segments.Count, Mark, RaiseBase, Slide;
    RoundKeeps(c, y, Event(Receiver.AckMessage(m), false));
    SentAck(m);
  }

  // ----- next_seq_num behind send_base -----

  /** next_seq_num is at least send_base in every reachable state of these sessions. */
  ghost predicate NeverBehind(c: Session) {
    forall y :: Reachable(c, y) ==> y.sender.base <= y.sender.next
  }

  /** Segments 0 and 1 are sent and delivered, and the cumulative ACK for both is in flight. */
  lemma BothDelivered(c: Session) returns (y: System, run: seq<Step>)
    requires Fits(c) && c.mode == Basic && c.window >= 2
    ensures Possible(c, Start(), run) && y == After(c, Start(), run)
    ensures Inv(c, y) && !y.closed && y.sender.base == 0 && Receiver.AckMessage(2) in y.acks
  {
    hide Inv, Enabled, Apply, DataMessage, Receiver.AckMessage, NothingLater, Absorb;
    InvAtStart(c);
    StartQuiet();
    QuietRound(c, Start(), false);
    RoundSends(c, Start(), Event([], false));
    var q := Quiet(false);
    var y1 := Apply(c, Start(), q);
    QuietRound(c, y1, false);
    RoundSends(c, y1, Event([], false));
    var y2 := Apply(c, y1, q);
    var d0, d1 := Deliver(DataMessage(c.file, 0)), Deliver(DataMessage(c.file, 1));
    DeliverExpected(c, y2, 0);
    var y3 := Apply(c, y2, d0);
    DeliverExpected(c, y3, 1);
    y := Apply(c, y3, d1);
    run := [q, q, d0, d1];
    FourSteps(c, Start(), q, y1, q, y2, d0, y3, d1);
  }

  lemma StartQuiet()
    ensures Receiver.Sized(Start().receiver) && NothingLater(Start().receiver) && Start().receiver.base == 0
    ensures Start().sender.base == 0 && Start().sender.next == 0 && !Start().closed
  {
  }

  /** A timeout resets next_seq_num, and then a late cumulative ACK takes send_base past it. */
  lemma FallsBehind(c: Session) returns (run: seq<Step>)
    requires Fits(c) && c.mode == Basic && c.window >= 2
    ensures Possible(c, Start(), run)
    ensures var s := After(c, Start(), run).sender; s.next == 1 && s.base == 2
  {
    hide Start, Inv, Enabled, Apply, Possible, After, DataMessage, Receiver.AckMessage, Absorb;
    var y, first := BothDelivered(c);
    QuietRound(c, y, true);
    OtherSteps(c, y, Quiet(true));
    var y1 := Apply(c, y, Quiet(true));
    var e := Event(Receiver.AckMessage(2), false);
    AckRound(c, y1, 2);
    RoundSends(c, y1, e);
    RaisedToTwo();
    StartSized();
    OneMore(c, Start(), first, Quiet(true));
    OneMore(c, Start(), first + [Quiet(true)], Round(e));
    run := first + [Quiet(true)] + [Round(e)];
  }

  lemma RaisedToTwo()
    ensures RaiseBase(0, [2]) == 2
  {
    assert [2][..0] == [];
  }

  /** With a window of 1, everything that can be acknowledged in a round has been sent by then. */
  lemma RoundNotBehind(c: Session, y: System, e: Event)
    requires Fits(c) && c.mode == Basic && c.window == 1 && Inv(c, y) && y.sender.base <= y.sender.next
    requires Enabled(c, y, Round(e))
    ensures var s := Apply(c, y, Round(e)).sender; s.base <= s.next
  {
    hide Inv, Iterate, DataMessage, Acks, RaiseBase, Segments.Count;
    TransmitKeeps(c, y);
    var y1 := TransmitStep(c, y);
    AbsorbKeeps(c, y1, e.message);
    ReceiverNotAhead(c, y);
    BaseBelowLimit(c, y);
    BaseBelowLimit(c, AbsorbStep(c, y1, e.message));
    RoundInParts(c, y, e);
  }

  lemma {:induction false} WindowOfOne(c: Session, y: System, run: seq<Step>)
    requires Fits(c) && c.mode == Basic && c.window == 1 && Inv(c, y) && y.sender.base <= y.sender.next
    requires Receiver.Sized(y.receiver) && Possible(c, y, run)
    ensures var s := After(c, y, run).sender; s.base <= s.next
    decreases |run|
  {
    hide Inv, Enabled, Apply;
    if run != [] {
      StepKeeps(c, y, run[0]);
      if run[0].Round? {
        RoundNotBehind(c, y, run[0].event);
      } else {
        OtherSteps(c, y, run[0]);
      }
      WindowOfOne(c, Apply(c, y, run[0]), run[1..]);
    }
  }

  /** The state that blocks sending exists exactly in Basic with a window of two or more. */
  lemma NeverBehindExactly(c: Session)
    requires Fits(c)
    ensures NeverBehind(c) <==> c.mode == Opt || c.window == 1
  {
    hide Start, Enabled, Apply, Possible, After, Inv;
    StartQuiet();
    if c.mode == Basic && c.window >= 2 {
      var run := FallsBehind(c);
      assert Reachable(c, After(c, Start(), run));
    } else {
      forall y | Reachable(c, y)
        ensures y.sender.base <= y.sender.next
      {
        if c.mode == Opt {
          OptWindow(c, y);
        } else {
          var run: seq<Step> :| Possible(c, Start(), run) && After(c, Start(), run) == y;
          InvAtStart(c);
          WindowOfOne(c, Start(), run);
        }
      }
    }
  }
}
