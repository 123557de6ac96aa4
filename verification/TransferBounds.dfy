/** What the windows, the overrun past the file and the arrays look like in every reachable state. */
module TransferBounds {
  import opened Words
  import opened Rtp
  import opened Sender
  import opened Transfer
  import opened TransferSafety
  import Receiver
  import Segments
  import opened Sets

  ghost predicate Reachable(c: Session, y: System) {
    exists run: seq<Step> :: Possible(c, Start(), run) && After(c, Start(), run) == y
  }

  lemma ReachableInv(c: Session, y: System)
    requires Fits(c) && Reachable(c, y)
    ensures Inv(c, y)
  {
    hide Inv, Enabled, Apply, Start;
    StartSized();
    var run: seq<Step> :| Possible(c, Start(), run) && After(c, Start(), run) == y;
    InvAtStart(c);
    RunKeeps(c, Start(), run);
  }

  /** Files of at most 100 MB with windows of at most 512, as the assignment allows. */
  lemma PromisedSizesFit(c: Session)
    requires |c.file| <= 104857600 && 1 <= c.window <= 512
    ensures Fits(c)
  {
  }

  /** An intact segment in flight is below the end of the receiver's window, in either mode. */
  lemma DataBelowReceiverWindow(c: Session, y: System, d: Datagram)
    requires Fits(c) && Reachable(c, y) && d in y.data
    ensures |d| <= PACKET_SIZE
    ensures Receiver.IntactData(ReadPacket(d)) ==> ReadPacket(d).rtp.seqNum < y.receiver.base + c.window
  {
    ReachableInv(c, y);
    GenuineInFlight(c, y, d);
    hide ReadPacket, Reachable, Inv, Genuine, Receiver.IntactData, Limit;
    if Receiver.IntactData(ReadPacket(d)) {
      DataBelowWindowEnd(c, y, ReadPacket(d));
    }
  }

  /** Opt: the receiver acknowledges intact data without looking at its window, yet a number the
      sender holds as acknowledged has been cached, so the sender never passes a dropped segment. */
  lemma SelectiveAcksSound(c: Session, y: System, a: nat)
    requires Fits(c) && Reachable(c, y) && c.mode == Opt && a < |y.sender.acked| && y.sender.acked[a]
    ensures a < |y.receiver.cached| && y.receiver.cached[a]
    ensures Content(y.receiver.cache[a]) == Segments.Read(c.file, a)
  {
    ReachableInv(c, y);
    hide DataInv, AckInv, Content, Segments.Read, DataMessage, EndMessage, Reachable, Segments.Joined;
  }

  /** Opt: send_base is the least unacknowledged number and never ahead of next_seq_num, so the
      catch-up at the top of the loop does nothing. */
  lemma OptWindow(c: Session, y: System)
    requires Fits(c) && Reachable(c, y) && c.mode == Opt
    ensures y.sender.base <= y.sender.next <= y.sender.base + c.window
    ensures CatchUp(c, y.sender) == y.sender
    ensures y.sender.base < |y.sender.acked| && !y.sender.acked[y.sender.base]
    ensures forall a :: 0 <= a < y.sender.base ==> y.sender.acked[a]
  {
    ReachableInv(c, y);
    hide DataInv, ReceiverInv, AckInv, DataMessage, EndMessage, Reachable;
    assert y.sender.base <= Limit(c) by {
      BaseBelowLimit(c, y);
    }
  }

  lemma BaseBelowLimit(c: Session, y: System)
    requires Fits(c) && Inv(c, y)
    ensures y.sender.base <= y.receiver.base <= Limit(c)
    ensures y.sender.next <= Limit(c) && y.sender.next <= y.sender.base + c.window
    ensures |y.sender.acked| == ACKED_SIZE && Receiver.Sized(y.receiver)
  {
    hide DataInv, AckInv, DataMessage, EndMessage;
  }

  /** A new segment is numbered within the window and at most window - 2 past the last segment. */
  lemma TransmitsWithinWindow(c: Session, y: System)
    requires Fits(c) && Reachable(c, y) && !y.closed && !Finished(c, y.sender)
    requires Transmit(c, y.sender).1 != []
    ensures var q := y.sender.next;
      && Transmit(c, y.sender).1 == [DataMessage(c.file, q)]
      && y.sender.base <= q < y.sender.base + c.window && q <= Segments.Count(c.file) + c.window - 2
  {
    ReachableInv(c, y);
    BaseBelowLimit(c, y);
    hide DataInv, ReceiverInv, AckInv, DataMessage, EndMessage, Reachable;
  }

  /** Neither side gets further ahead of the other than a window. */
  lemma BasesWithinWindow(c: Session, y: System)
    requires Fits(c) && Reachable(c, y)
    ensures y.sender.base <= y.receiver.base <= y.sender.base + c.window
  {
    ReachableInv(c, y);
    hide Inv, Reachable;
    ReceiverNotAhead(c, y);
  }

  lemma ReceiverNotAhead(c: Session, y: System)
    requires Fits(c) && Inv(c, y)
    ensures y.sender.base <= y.receiver.base <= y.sender.base + c.window
  {
    BaseBelowLimit(c, y);
    hide DataInv, AckInv, DataMessage, EndMessage, Content, Segments.Read;
    assert y.receiver.base > 0 ==> y.receiver.cached[y.receiver.base - 1];
  }

  predicate AtLeast(q: nat, lo: nat) { lo <= q }

  function Numbers(lo: nat, hi: nat): set<nat> {
    set q: nat | q < hi && AtLeast(q, lo)
  }

  lemma {:induction false} NumbersSize(lo: nat, hi: nat)
    requires lo <= hi
    ensures |Numbers(lo, hi)| == hi - lo
    decreases hi
  {
    if lo < hi {
      NumbersSize(lo, hi - 1);
      assert Numbers(lo, hi) == Numbers(lo, hi - 1) + {hi - 1};
    } else {
      assert Numbers(lo, hi) == {};
    }
  }

  predicate Sent(c: Session, y: System, q: nat) {
    DataMessage(c.file, q) in y.data
  }

  /** The numbers at or above send_base whose segments have been put on the channel. */
  function Outstanding(c: Session, y: System): set<nat> {
    set q: nat | q < U32 && y.sender.base <= q && Sent(c, y, q)
  }

  lemma SentBelowWindow(c: Session, y: System, q: nat)
    requires Fits(c) && Inv(c, y) && q < U32 && Sent(c, y, q)
    ensures q < y.sender.base + c.window
  {
    var d := DataMessage(c.file, q);
    SentData(c.file, q);
    GenuineInFlight(c, y, d);
    hide Inv, DataMessage, ReadPacket, PacketIntact, Content;
    assert Genuine(c, y, ReadPacket(d));
  }

  /** At most a window's worth of segments is sent and not yet acknowledged. */
  lemma OutstandingFitsWindow(c: Session, y: System)
    requires Fits(c) && Reachable(c, y)
    ensures Outstanding(c, y) <= Numbers(y.sender.base, y.sender.base + c.window)
    ensures |Outstanding(c, y)| <= c.window
  {
    hide *;
    ReachableInv(c, y);
    InFlightNumbers(c, y);
    NumbersSize(y.sender.base, y.sender.base + c.window);
    SubsetSize(Outstanding(c, y), Numbers(y.sender.base, y.sender.base + c.window));
  }

  lemma InFlightNumbers(c: Session, y: System)
    requires Fits(c) && Inv(c, y)
    ensures Outstanding(c, y) <= Numbers(y.sender.base, y.sender.base + c.window)
  {
    hide Inv, Sent;
    forall q | q in Outstanding(c, y)
      ensures q < y.sender.base + c.window
    {
      SentBelowWindow(c, y, q);
    }
  }

  /** Numbers past the last segment carry nothing and stay below seg_len + window - 1. */
  lemma OverrunHarmless(c: Session, y: System, d: Datagram)
    requires Fits(c) && Reachable(c, y) && d in y.data
    ensures |d| <= PACKET_SIZE
    ensures var p := ReadPacket(d);
      Receiver.IntactData(p) ==>
        && p.rtp.seqNum <= Segments.Count(c.file) + c.window - 2
        && (p.rtp.seqNum >= Segments.Count(c.file) ==> Content(p) == [])
    ensures y.sender.base <= Segments.Count(c.file) + c.window - 1
    ensures y.receiver.base <= Segments.Count(c.file) + c.window - 1
  {
    ReachableInv(c, y);
    BaseBelowLimit(c, y);
    GenuineInFlight(c, y, d);
    hide ReadPacket, PacketIntact, Content, Reachable, Inv;
    var p := ReadPacket(d);
    if Receiver.IntactData(p) {
      Segments.SegmentLengths(c.file, p.rtp.seqNum);
    }
  }

  /** Every array access and every 32-bit sum or product the programs compute stays in range. */
  lemma ProgramsInBounds(c: Session, y: System)
    requires Fits(c) && Reachable(c, y)
    ensures Receiver.Sized(y.receiver)
    ensures forall e :: Enabled(c, y, Round(e)) ==> InBounds(c, y.sender, e)
    ensures forall d :: Enabled(c, y, Deliver(d)) ==> Receiver.InBounds(c.window, y.receiver, ReadPacket(d))
    ensures y.sender.next + 1 < U32 && y.sender.base + c.window < U32 && y.receiver.base + c.window < U32
    ensures y.sender.next * PAYLOAD_SIZE < U32
  {
    ReachableInv(c, y);
    BaseBelowLimit(c, y);
    hide Reachable, Inv, Acks, ReadPacket, Enabled, InBounds, Receiver.InBounds;
    forall e | Enabled(c, y, Round(e))
      ensures InBounds(c, y.sender, e)
    {
      RoundInBounds(c, y, e);
    }
    forall d | Enabled(c, y, Deliver(d))
      ensures Receiver.InBounds(c.window, y.receiver, ReadPacket(d))
    {
      DeliverInBounds(c, y, d);
    }
  }

  lemma RoundInBounds(c: Session, y: System, e: Event)
    requires Fits(c) && Inv(c, y) && Enabled(c, y, Round(e))
    ensures InBounds(c, y.sender, e)
  {
    hide Acks, Inv, Transmit, Absorb;
    TransmitKeeps(c, y);
    var y1 := TransmitStep(c, y);
    AbsorbKeeps(c, y1, e.message);
    BaseBelowLimit(c, AbsorbStep(c, y1, e.message));
    BaseBelowLimit(c, y);
    ReadAcksBacked(c, y, e.message);
    TransmitKeepsAcked(c, y.sender);
  }

  lemma TransmitKeepsAcked(c: Session, s: Sender.State)
    ensures Transmit(c, s).0.acked == s.acked
  {
    hide DataMessage;
  }

  lemma DeliverInBounds(c: Session, y: System, d: Datagram)
    requires Fits(c) && Inv(c, y) && Enabled(c, y, Deliver(d))
    ensures Receiver.InBounds(c.window, y.receiver, ReadPacket(d))
  {
    hide Inv, ReadPacket, Genuine, Receiver.Handle, Receiver.IntactData, Receiver.Replies;
    var p := ReadPacket(d);
    GenuineInFlight(c, y, d);
    DeliverKeeps(c, y, d);
    BaseBelowLimit(c, DeliverStep(c, y, d));
    if Receiver.IntactData(p) {
      DataBelowWindowEnd(c, y, p);
    }
  }

  /** No step takes back an acknowledgement or a written byte. */
  lemma NothingTakenBack(c: Session, y: System, step: Step)
    requires Fits(c) && Reachable(c, y) && Receiver.Sized(y.receiver) && Enabled(c, y, step)
    ensures var y' := Apply(c, y, step);
      && y.sender.base <= y'.sender.base && y.receiver.base <= y'.receiver.base
      && y.receiver.output <= y'.receiver.output
      && (y.closed ==> y'.closed) && (y.receiver.done ==> y'.receiver.done)
  {
    ReachableInv(c, y);
    if step.Round? {
      RoundAdvances(c, y, step.event);
    } else if step.Deliver? {
      DeliverAdvances(c, y, step.d);
    }
  }

  lemma RoundAdvances(c: Session, y: System, e: Event)
    requires Fits(c) && Inv(c, y) && Enabled(c, y, Round(e))
    ensures y.sender.base <= Apply(c, y, Round(e)).sender.base
  {
    hide Inv, DataMessage, Resend, Acks, RaiseBase, Mark, Slide;
    RaiseBaseIsMax(y.sender.base, Acks(e.message));
  }

  lemma DeliverAdvances(c: Session, y: System, d: Datagram)
    requires Fits(c) && Inv(c, y) && Enabled(c, y, Deliver(d))
    ensures var r' := Apply(c, y, Deliver(d)).receiver;
      y.receiver.base <= r'.base && y.receiver.output <= r'.output && (y.receiver.done ==> r'.done)
  {
    hide Inv, Genuine, ReadPacket, PacketIntact, Receiver.Drain, Receiver.Replies;
    GenuineInFlight(c, y, d);
    var p := ReadPacket(d);
    if !Receiver.Closes(y.receiver, p) {
      Receiver.DrainGrows(if Receiver.IntactData(p) then Receiver.Store(c.window, y.receiver, p) else y.receiver);
    }
  }
}
