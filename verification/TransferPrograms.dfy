/** The step system runs the loops of the two programs: what a run does to either side is what its
    loop computes from the events of that side, with every array access in bounds. */
module TransferPrograms {
  import opened Words
  import opened Rtp
  import opened Sender
  import opened Transfer
  import opened TransferSafety
  import opened TransferBounds
  import opened TransferProgress
  import Receiver
  import Segments
  import SenderProgram
  import ReceiverProgram

  /** What the sender's loop sees of a run. */
  function Events(run: seq<Step>): seq<Event> {
    if run == [] then []
    else
      var n := |run| - 1;
      Events(run[..n]) + (match run[n] case Round(e) => [e] case _ => [])
  }

  /** What the receiver's loop sees of a run. */
  function Arrivals(run: seq<Step>): seq<Datagram> {
    if run == [] then []
    else
      var n := |run| - 1;
      Arrivals(run[..n]) + (match run[n] case Deliver(d) => [d] case _ => [])
  }

  lemma RoundIsIterate(c: Session, y: System, e: Event)
    requires Receiver.Sized(y.receiver) && Enabled(c, y, Round(e))
    ensures Apply(c, y, Round(e)).sender == Iterate(c, y.sender, e).0 && !Finished(c, y.sender)
  {
    hide Iterate;
  }

  lemma RunSnoc(c: Session, st: Sender.State, events: seq<Event>, e: Event)
    requires !Finished(c, Sender.Run(c, st, events).0) && RunInBounds(c, st, events)
    requires InBounds(c, Sender.Run(c, st, events).0, e)
    ensures var (s, out) := Sender.Run(c, st, events);
      Sender.Run(c, st, events + [e]) == (Iterate(c, s, e).0, out + Iterate(c, s, e).1)
    ensures RunInBounds(c, st, events + [e])
  {
    hide Iterate, InBounds, Finished;
    var all := events + [e];
    assert all[..|events|] == events;
    forall k | 0 <= k < |all|
      ensures var s := Sender.Run(c, st, all[..k]).0; !Finished(c, s) ==> InBounds(c, s, all[k])
    {
      if k < |events| {
        assert all[..k] == events[..k];
      }
    }
  }

  /** The sender's state after any run is what its loop computes from the run's events. */
  lemma {:induction false} SenderRunsItsLoop(c: Session, run: seq<Step>)
    requires Fits(c) && Possible(c, Start(), run)
    ensures After(c, Start(), run).sender == Sender.Run(c, Sender.Initial(), Events(run)).0
    ensures RunInBounds(c, Sender.Initial(), Events(run))
    decreases |run|
  {
    hide Start, Enabled, Apply, Inv, Iterate, InBounds, RunInBounds, Possible, After, Sender.Initial;
    StartSized();
    StartSender();
    if run == [] {
      EmptyRun(c);
    } else {
      var init, last := run[..|run| - 1], run[|run| - 1];
      LastStep(c, Start(), run);
      SenderRunsItsLoop(c, init);
      var y := After(c, Start(), init);
      InvAtStart(c);
      RunKeeps(c, Start(), init);
      match last
      case Round(e) =>
        RoundIsIterate(c, y, e);
        RoundInBounds(c, y, e);
        RunSnoc(c, Sender.Initial(), Events(init), e);
      case _ =>
        OtherSteps(c, y, last);
        assert Events(run) == Events(init);
    }
  }

  lemma StartSender()
    ensures Start().sender == Sender.Initial() && Start().receiver == Receiver.Initial()
  {
  }

  lemma EmptyRun(c: Session)
    ensures Receiver.Sized(Start().receiver) && Possible(c, Start(), []) && After(c, Start(), []) == Start()
    ensures RunInBounds(c, Sender.Initial(), [])
  {
    StartSized();
  }

  predicate Arrived(ds: seq<Datagram>) {
    forall d :: d in ds ==> 0 < |d| <= PACKET_SIZE
  }

  lemma DeliverIsHandle(c: Session, y: System, d: Datagram)
    requires Receiver.Sized(y.receiver) && Enabled(c, y, Deliver(d))
    ensures 0 < |d| <= PACKET_SIZE && !y.receiver.done
    ensures Apply(c, y, Deliver(d)).receiver == Receiver.Handle(c.window, y.receiver, ReadPacket(d))
  {
    hide ReadPacket, Receiver.Handle;
  }

  lemma ReceiverRunSnoc(c: Session, r: Receiver.State, ds: seq<Datagram>, d: Datagram)
    requires Receiver.Sized(r) && Arrived(ds) && 0 < |d| <= PACKET_SIZE
    requires !Receiver.Run(c.mode, c.window, r, ds).0.done
    ensures Arrived(ds + [d])
    ensures var (s, replies) := Receiver.Run(c.mode, c.window, r, ds);
      Receiver.Run(c.mode, c.window, r, ds + [d])
      == (Receiver.Handle(c.window, s, ReadPacket(d)), replies + Receiver.Replies(c.mode, c.window, s, ReadPacket(d)))
  {
    hide ReadPacket, Receiver.Handle, Receiver.Replies;
    assert (ds + [d])[..|ds|] == ds;
  }

  lemma ReceiverBoundsSnoc(c: Session, r: Receiver.State, ds: seq<Datagram>, d: Datagram)
    requires Receiver.Sized(r) && Arrived(ds) && Arrived(ds + [d])
    requires Receiver.RunInBounds(c.mode, c.window, r, ds)
    requires 0 < |d| <= PACKET_SIZE
    requires Receiver.InBounds(c.window, Receiver.Run(c.mode, c.window, r, ds).0, ReadPacket(d))
    ensures Receiver.RunInBounds(c.mode, c.window, r, ds + [d])
  {
    hide ReadPacket, Receiver.Run, Receiver.InBounds;
    var all := ds + [d];
    assert all[..|ds|] == ds;
    forall k | 0 <= k < |ds|
      ensures all[..k] == ds[..k] && all[k] == ds[k]
    {
    }
  }

  /** The receiver's state after any run is what its loop computes from the run's arrivals. */
  lemma {:induction false} ReceiverRunsItsLoop(c: Session, run: seq<Step>)
    requires Fits(c) && Possible(c, Start(), run)
    ensures Arrived(Arrivals(run))
    ensures After(c, Start(), run).receiver
         == Receiver.Run(c.mode, c.window, Receiver.Initial(), Arrivals(run)).0
    ensures Receiver.RunInBounds(c.mode, c.window, Receiver.Initial(), Arrivals(run))
    decreases |run|
  {
    hide Start, Enabled, Apply, Inv, Receiver.Handle, Receiver.InBounds, Receiver.RunInBounds, ReadPacket,
      Possible, After;
    StartSized();
    StartSender();
    if run == [] {
      EmptyRun(c);
      EmptyArrivals(c);
    } else {
      var init, last := run[..|run| - 1], run[|run| - 1];
      LastStep(c, Start(), run);
      ReceiverRunsItsLoop(c, init);
      var y := After(c, Start(), init);
      InvAtStart(c);
      RunKeeps(c, Start(), init);
      match last
      case Deliver(d) =>
        DeliverIsHandle(c, y, d);
        DeliverInBounds(c, y, d);
        ReceiverRunSnoc(c, Receiver.Initial(), Arrivals(init), d);
        ReceiverBoundsSnoc(c, Receiver.Initial(), Arrivals(init), d);
      case _ =>
        OtherSteps(c, y, last);
        assert Arrivals(run) == Arrivals(init);
    }
  }

  lemma EmptyArrivals(c: Session)
    ensures Receiver.RunInBounds(c.mode, c.window, Receiver.Initial(), [])
  {
  }

  // ----- what is on the channels -----

  /** The messages damaged on the way to the receiver. */
  function DamagedData(run: seq<Step>): set<Datagram> {
    if run == [] then {}
    else
      var n := |run| - 1;
      DamagedData(run[..n]) + (match run[n] case DamageData(d) => {d} case _ => {})
  }

  /** The messages damaged on the way to the sender. */
  function DamagedAcks(run: seq<Step>): set<Datagram> {
    if run == [] then {}
    else
      var n := |run| - 1;
      DamagedAcks(run[..n]) + (match run[n] case DamageAck(d) => {d} case _ => {})
  }

  /** What terminateSender has sent. */
  function Ends(y: System): set<Datagram> {
    if y.closed then {EndMessage(y.sender.base)} else {}
  }

  lemma MessagesAppend(a: seq<Datagram>, b: seq<Datagram>)
    ensures Messages(a + b) == Messages(a) + Messages(b)
  {
  }

  lemma StepData(c: Session, y: System, step: Step)
    requires Receiver.Sized(y.receiver) && Enabled(c, y, step)
    ensures step.Round? ==> var y' := Apply(c, y, step);
      y'.data == y.data + Messages(Iterate(c, y.sender, step.event).1) && !y.closed && !y'.closed
    ensures !step.Round? ==> var y' := Apply(c, y, step);
      && Ends(y) <= Ends(y')
      && y'.data == y.data + (Ends(y') - Ends(y)) + (match step case DamageData(d) => {d} case _ => {})
  {
    hide Iterate, EndMessage, ReadPacket, Receiver.Handle, Receiver.Replies, Acks;
  }

  lemma StepAcks(c: Session, y: System, step: Step)
    requires Receiver.Sized(y.receiver) && Enabled(c, y, step)
    ensures step.Deliver? ==>
      && |step.d| <= PACKET_SIZE
      && Apply(c, y, step).acks
         == y.acks + Messages(Receiver.Replies(c.mode, c.window, y.receiver, ReadPacket(step.d)))
    ensures !step.Deliver? ==>
      Apply(c, y, step).acks == y.acks + (match step case DamageAck(d) => {d} case _ => {})
  {
    hide Iterate, EndMessage, ReadPacket, Receiver.Handle, Receiver.Replies, Acks;
  }

  /** The channel to the receiver holds exactly what the sender's loop has sent, the END and what
      was damaged. */
  lemma {:induction false} DataIsWhatWasSent(c: Session, run: seq<Step>)
    requires Fits(c) && Possible(c, Start(), run)
    ensures var y := After(c, Start(), run);
      y.data == Messages(Sender.Run(c, Sender.Initial(), Events(run)).1) + Ends(y) + DamagedData(run)
    decreases |run|
  {
    hide Start, Enabled, Apply, Inv, Iterate, InBounds, RunInBounds, Possible, After, Sender.Initial, Ends;
    StartSized();
    if run == [] {
      EmptyRun(c);
      StartEmpty();
    } else {
      var init, last := run[..|run| - 1], run[|run| - 1];
      LastStep(c, Start(), run);
      DataIsWhatWasSent(c, init);
      SenderRunsItsLoop(c, init);
      var y := After(c, Start(), init);
      StepData(c, y, last);
      match last
      case Round(e) =>
        InvAtStart(c);
        RunKeeps(c, Start(), init);
        RoundIsIterate(c, y, e);
        RoundInBounds(c, y, e);
        RunSnoc(c, Sender.Initial(), Events(init), e);
        MessagesAppend(Sender.Run(c, Sender.Initial(), Events(init)).1, Iterate(c, y.sender, e).1);
        NoEnds(y);
        NoEnds(After(c, Start(), run));
      case _ =>
        assert Events(run) == Events(init);
    }
  }

  lemma NoEnds(y: System)
    requires !y.closed
    ensures Ends(y) == {}
  {
  }

  lemma StartEmpty()
    ensures Start().data == {} && Start().acks == {} && Ends(Start()) == {}
  {
  }

  lemma NoReplies(c: Session)
    ensures Messages(Receiver.Run(c.mode, c.window, Receiver.Initial(), []).1) == {}
  {
  }

  /** The channel to the sender holds exactly what the receiver's loop has sent and what was damaged. */
  lemma {:induction false} AcksAreWhatWasSent(c: Session, run: seq<Step>)
    requires Fits(c) && Possible(c, Start(), run)
    ensures Arrived(Arrivals(run))
    ensures After(c, Start(), run).acks
         == Messages(Receiver.Run(c.mode, c.window, Receiver.Initial(), Arrivals(run)).1) + DamagedAcks(run)
    decreases |run|
  {
    hide Start, Enabled, Apply, Inv, Receiver.Handle, Receiver.Replies, Receiver.RunInBounds, ReadPacket, Possible,
      After, Receiver.Initial, Receiver.Run, Messages;
    StartSized();
    if run == [] {
      EmptyRun(c);
      StartEmpty();
      NoReplies(c);
    } else {
      var init, last := run[..|run| - 1], run[|run| - 1];
      LastStep(c, Start(), run);
      AcksAreWhatWasSent(c, init);
      ReceiverRunsItsLoop(c, init);
      var y := After(c, Start(), init);
      StepAcks(c, y, last);
      match last
      case Deliver(d) =>
        DeliverIsHandle(c, y, d);
        ReceiverRunSnoc(c, Receiver.Initial(), Arrivals(init), d);
        MessagesAppend(Receiver.Run(c.mode, c.window, Receiver.Initial(), Arrivals(init)).1,
          Receiver.Replies(c.mode, c.window, y.receiver, ReadPacket(d)));
      case _ =>
        assert Arrivals(run) == Arrivals(init);
    }
  }

  // ----- the programs themselves -----

  /** sendMessage or sendMessageOpt, given the sender's part of any run: it ends in the run's state,
      what it has sent is what is on the channel, and when it has sent everything the receiver has
      written the file. */
  method ReplaySender(c: Session, run: seq<Step>) returns (program: SenderProgram.RtpSender, sent: seq<Datagram>)
    requires Fits(c) && Possible(c, Start(), run)
    ensures program.State() == After(c, Start(), run).sender
    ensures After(c, Start(), run).data == Messages(sent) + Ends(After(c, Start(), run)) + DamagedData(run)
    ensures program.sendBase >= Segments.Count(c.file) ==> After(c, Start(), run).receiver.output == c.file
  {
    hide Start, Enabled, Apply, Inv, Iterate, InBounds, RunInBounds, Possible, After, Sender.Run, Events;
    StartSized();
    SenderRunsItsLoop(c, run);
    DataIsWhatWasSent(c, run);
    program := new SenderProgram.RtpSender(c.window);
    match c.mode {
      case Basic => sent := program.SendMessage(c.file, Events(run));
      case Opt => sent := program.SendMessageOpt(c.file, Events(run));
    }
    if Finished(c, After(c, Start(), run).sender) {
      FinishedMeansDelivered(c, run);
    }
  }

  /** recvMessage or recvMessageOpt, given the receiver's part of any run: it ends in the run's state,
      its replies are the ACKs on the channel, and the file written is a prefix of the sender's file,
      and all of it when the size is returned instead of -1. */
  method ReplayReceiver(c: Session, run: seq<Step>)
    returns (program: ReceiverProgram.RtpReceiver, replies: seq<Datagram>, result: int)
    requires Fits(c) && Possible(c, Start(), run)
    ensures program.State(result >= 0) == After(c, Start(), run).receiver
    ensures After(c, Start(), run).acks == Messages(replies) + DamagedAcks(run)
    ensures program.output <= c.file
    ensures result >= 0 ==> program.output == c.file && result == |c.file|
    ensures result >= 0 <==> After(c, Start(), run).receiver.done
  {
    hide Start, Enabled, Apply, Inv, Possible, After, Receiver.RunInBounds, Receiver.Run, Arrivals, Receiver.Initial;
    StartSized();
    ReceiverRunsItsLoop(c, run);
    AcksAreWhatWasSent(c, run);
    OutputIsPrefix(c, run);
    if After(c, Start(), run).receiver.done {
      OutputIsFile(c, run);
    }
    program := new ReceiverProgram.RtpReceiver(c.window);
    InitialAtZero();
    replies, result := program.RecvMessage(c.mode, Arrivals(run));
  }

  lemma InitialAtZero()
    ensures Receiver.Initial().base == 0 && Receiver.Initial().(base := 0) == Receiver.Initial()
  {
  }

  // ----- many ACK messages, in any order -----

  function AllAcks(messages: seq<Datagram>): seq<nat> {
    if messages == [] then [] else AllAcks(messages[..|messages| - 1]) + Acks(messages[|messages| - 1])
  }

  function AbsorbAll(c: Session, st: Sender.State, messages: seq<Datagram>): Sender.State {
    if messages == [] then st
    else Absorb(c, AbsorbAll(c, st, messages[..|messages| - 1]), messages[|messages| - 1])
  }

  lemma {:induction false} RaiseAppend(base: nat, a: seq<nat>, b: seq<nat>)
    ensures RaiseBase(base, a + b) == RaiseBase(RaiseBase(base, a), b)
    decreases |b|
  {
    if b == [] {
      assert a + b == a;
    } else {
      assert (a + b)[..|a + b| - 1] == a + b[..|b| - 1];
      RaiseAppend(base, a, b[..|b| - 1]);
    }
  }

  lemma {:induction false} MarkAppend(acked: seq<bool>, a: seq<nat>, b: seq<nat>)
    ensures Mark(acked, a + b) == Mark(Mark(acked, a), b)
    decreases |b|
  {
    if b == [] {
      assert a + b == a;
    } else {
      assert (a + b)[..|a + b| - 1] == a + b[..|b| - 1];
      MarkAppend(acked, a, b[..|b| - 1]);
    }
  }

  /** Sliding over more acknowledgements can start from where an earlier slide stopped. */
  lemma {:induction false} SlideResumes(acked: seq<bool>, more: seq<bool>, base: nat)
    requires |acked| == |more| && forall i :: 0 <= i < |acked| && acked[i] ==> more[i]
    ensures Slide(more, Slide(acked, base)) == Slide(more, base)
    decreases |acked| - base
  {
    if base < |acked| && acked[base] {
      SlideResumes(acked, more, base + 1);
    }
  }

  /** Reading messages one by one is reading all their ACKs at once. */
  lemma {:induction false} AbsorbAllIs(c: Session, st: Sender.State, messages: seq<Datagram>)
    ensures c.mode == Basic ==>
      AbsorbAll(c, st, messages) == st.(base := RaiseBase(st.base, AllAcks(messages)))
    ensures c.mode == Opt && Slide(st.acked, st.base) == st.base ==>
      var acked := Mark(st.acked, AllAcks(messages));
      AbsorbAll(c, st, messages) == st.(acked := acked, base := Slide(acked, st.base))
    decreases |messages|
  {
    hide Acks, Slide;
    if messages != [] {
      var init, acks := messages[..|messages| - 1], Acks(messages[|messages| - 1]);
      AbsorbAllIs(c, st, init);
      RaiseAppend(st.base, AllAcks(init), acks);
      MarkAppend(st.acked, AllAcks(init), acks);
      var before := Mark(st.acked, AllAcks(init));
      forall i | 0 <= i < |before| && before[i]
        ensures Mark(before, acks)[i]
      {
        MarkIsUnion(before, acks, i);
      }
      SlideResumes(before, Mark(before, acks), st.base);
    }
  }

  /** Two sequences of messages with the same ACK numbers, in any order and however often
      repeated, leave the sender in the same state. */
  lemma MessageOrderIrrelevant(c: Session, st: Sender.State, a: seq<Datagram>, b: seq<Datagram>)
    requires forall n :: n in AllAcks(a) <==> n in AllAcks(b)
    requires c.mode == Opt ==> Slide(st.acked, st.base) == st.base
    ensures AbsorbAll(c, st, a) == AbsorbAll(c, st, b)
  {
    hide AbsorbAll, AllAcks, Slide;
    AbsorbAllIs(c, st, a);
    AbsorbAllIs(c, st, b);
    AckOrderIrrelevant(st.base, st.acked, AllAcks(a), AllAcks(b));
  }
}
