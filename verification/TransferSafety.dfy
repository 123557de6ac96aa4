/** Every step keeps the invariant, so over every run the output is a prefix of the file, and
    the whole file once the receiver has stopped. */
module TransferSafety {
  import opened Words
  import opened Rtp
  import opened Sender
  import opened Transfer
  import Receiver
  import Segments

  // ----- the messages that are really sent -----

  predicate Carries(d: Datagram, typ: bv8, seqNum: nat, content: seq<bv8>) {
    0 < |d| <= PACKET_SIZE
    && var p := ReadPacket(d);
       && PacketIntact(p) && p.rtp.typ == typ && p.rtp.seqNum == seqNum
       && p.rtp.length == |content| <= PAYLOAD_SIZE && Content(p) == content
  }

  lemma SentData(file: seq<bv8>, q: nat)
    requires q < U32
    ensures Carries(DataMessage(file, q), DATA, q, Segments.Read(file, q))
  {
    hide Wire, MakePacket, PacketIntact, Content;
    PacketRoundTrip(DATA, q, Segments.Read(file, q));
    SentLength(DATA, q, Segments.Read(file, q));
  }

  lemma SentEnd(n: nat)
    requires n < U32
    ensures Carries(EndMessage(n), END, n, [])
  {
    hide Wire, MakePacket, PacketIntact, HeaderBytes, MakeHeader, Content;
    HeaderAsPacket(END, n);
    PacketRoundTrip(END, n, []);
    SentLength(END, n, []);
  }

  lemma SentAck(n: nat)
    requires n < U32
    ensures Acks(Receiver.AckMessage(n)) == [n]
  {
    hide HeaderBytes, MakeHeader, ReadHeader, HeaderIntact;
    var d := Receiver.AckMessage(n);
    HeaderAsPacket(ACK, n);
    HeaderFields(ACK, n);
    assert d[0 * HEADER_SIZE..1 * HEADER_SIZE] == d;
    assert AckNumbers(d, 1) == AckNumbers(d, 0) + [n];
  }

  lemma HeaderFields(typ: bv8, n: nat)
    ensures var h := MakeHeader(typ, 0, n); h.typ == typ && h.seqNum == n
  {
  }

  // ----- ACK numbers as sets: order and repetition do not matter -----

  /** send_base is raised to the largest number, wherever and however often it occurs. */
  lemma {:induction false} RaiseBaseIsMax(base: nat, acks: seq<nat>)
    ensures RaiseBase(base, acks) >= base && forall a :: a in acks ==> a <= RaiseBase(base, acks)
    ensures RaiseBase(base, acks) == base || RaiseBase(base, acks) in acks
  {
    if acks != [] {
      RaiseBaseIsMax(base, acks[..|acks| - 1]);
      assert acks == acks[..|acks| - 1] + [acks[|acks| - 1]];
    }
  }

  lemma {:induction false} MarkIsUnion(acked: seq<bool>, acks: seq<nat>, i: nat)
    requires i < |acked|
    ensures Mark(acked, acks)[i] <==> acked[i] || i in acks
  {
    if acks != [] {
      MarkIsUnion(acked, acks[..|acks| - 1], i);
      assert acks == acks[..|acks| - 1] + [acks[|acks| - 1]];
    }
  }

  /** Two sequences of ACKs with the same numbers leave the sender in the same state. */
  lemma AckOrderIrrelevant(base: nat, acked: seq<bool>, a: seq<nat>, b: seq<nat>)
    requires forall n :: n in a <==> n in b
    ensures RaiseBase(base, a) == RaiseBase(base, b)
    ensures Mark(acked, a) == Mark(acked, b)
    ensures Slide(Mark(acked, a), base) == Slide(Mark(acked, b), base)
  {
    RaiseBaseIsMax(base, a);
    RaiseBaseIsMax(base, b);
    forall i | 0 <= i < |acked|
      ensures Mark(acked, a)[i] == Mark(acked, b)[i]
    {
      MarkIsUnion(acked, a, i);
      MarkIsUnion(acked, b, i);
    }
    assert Mark(acked, a) == Mark(acked, b);
  }

  // ----- every step keeps the invariant -----

  lemma StartSized()
    ensures Receiver.Sized(Start().receiver)
  {
  }

  lemma InvAtStart(c: Session)
    requires Fits(c)
    ensures Inv(c, Start())
  {
    hide Acks, ReadPacket, DataMessage;
  }

  lemma NothingBeforeFirst(c: Session, y: System)
    requires Fits(c) && Inv(c, y) && !y.sender.armed
    ensures y.receiver.base == 0 && y.sender.base == 0 && y.sender.next == 0
  {
    hide Acks, ReadPacket, DataMessage, PacketIntact, Content, Segments.Read, Segments.Joined;
    assert !y.receiver.cached[0];
  }

  /** The sender's numbers only grow, except that next_seq_num falls back in Basic. */
  predicate Advances(mode: Mode, s: Sender.State, s': Sender.State) {
    s.base <= s'.base && (s.armed ==> s'.armed) && (mode == Opt ==> s.next <= s'.next)
  }

  /** What is in flight and what the receiver holds stay as they should when the sender advances. */
  lemma AdvanceFrame(c: Session, y: System, y': System)
    requires Fits(c) && DataInv(c, y) && ReceiverInv(c, y) && AckInv(c, y) && !y.closed
    requires y' == y.(sender := y'.sender) && Advances(c.mode, y.sender, y'.sender)
    ensures DataInv(c, y') && ReceiverInv(c, y') && AckInv(c, y')
  {
    hide AllBacked, ReadPacket, PacketIntact, Content, Segments.Read, Segments.Joined;
  }

  /** Putting a genuine packet in flight. */
  lemma DataAdded(c: Session, y: System, d: Datagram)
    requires Fits(c) && DataInv(c, y)
    requires 0 < |d| <= PACKET_SIZE && ReadPacket(d).rtp.length <= PAYLOAD_SIZE && Genuine(c, y, ReadPacket(d))
    ensures DataInv(c, y.(data := y.data + {d}))
  {
    hide ReadPacket, PacketIntact, Content, Segments.Read;
  }

  lemma TransmitKeeps(c: Session, y: System)
    requires Fits(c) && Inv(c, y) && !y.closed && !Finished(c, y.sender)
    ensures Inv(c, TransmitStep(c, y))
    ensures TransmitStep(c, y).sender.armed
  {
    hide AllBacked, ReadPacket, DataMessage, PacketIntact, Content, Segments.Read, Segments.Joined;
    if !y.sender.armed {
      NothingBeforeFirst(c, y);
    }
    var y' := TransmitStep(c, y);
    var q := y.sender.next;
    if WindowOpen(c, y.sender) {
      SentData(c.file, q);
      var y1 := y.(sender := y'.sender);
      AdvanceFrame(c, y, y1);
      DataAdded(c, y1, DataMessage(c.file, q));
      assert y' == y1.(data := y1.data + {DataMessage(c.file, q)});
      assert SenderInv(c, y');
    } else {
      assert y' == y;
    }
  }

  lemma AbsorbKeeps(c: Session, y: System, message: Datagram)
    requires Fits(c) && Inv(c, y) && !y.closed && (message == [] || message in y.acks)
    ensures Inv(c, AbsorbStep(c, y, message))
  {
    match c.mode
    case Basic => AbsorbKeepsBasic(c, y, message);
    case Opt => AbsorbKeepsOpt(c, y, message);
  }

  lemma ReadAcksBacked(c: Session, y: System, message: Datagram)
    requires Fits(c) && Inv(c, y) && !y.closed && (message == [] || message in y.acks)
    ensures AllBacked(c.mode, y.receiver, message)
  {
    hide HeaderAt, ReadPacket, DataMessage, PacketIntact, Content, Segments.Read, Segments.Joined;
    if message == [] {
      assert Acks(message) == [];
    }
  }

  lemma AbsorbKeepsBasic(c: Session, y: System, message: Datagram)
    requires c.mode == Basic
    requires Fits(c) && Inv(c, y) && !y.closed && (message == [] || message in y.acks)
    ensures Inv(c, AbsorbStep(c, y, message))
  {
    ReadAcksBacked(c, y, message);
    hide Acks, DataInv, RaiseBase;
    RaiseBaseIsMax(y.sender.base, Acks(message));
    AdvanceFrame(c, y, AbsorbStep(c, y, message));
  }

  lemma AbsorbKeepsOpt(c: Session, y: System, message: Datagram)
    requires c.mode == Opt
    requires Fits(c) && Inv(c, y) && !y.closed && (message == [] || message in y.acks)
    ensures Inv(c, AbsorbStep(c, y, message))
  {
    ReadAcksBacked(c, y, message);
    hide Acks, DataInv, AckInv, DataMessage, Content, Segments.Read, Segments.Joined, Mark, Slide;
    var s, s' := y.sender, AbsorbStep(c, y, message).sender;
    forall i | 0 <= i < |s.acked|
      ensures s'.acked[i] <==> s.acked[i] || i in Acks(message)
    {
      MarkIsUnion(s.acked, Acks(message), i);
    }
    SlideStops(c, y, s'.acked);
    AdvanceFrame(c, y, AbsorbStep(c, y, message));
  }

  /** The receiver has cached neither recv_base nor a number not yet sent, so neither is passed. */
  lemma SlideStops(c: Session, y: System, acked: seq<bool>)
    requires c.mode == Opt && Fits(c) && Inv(c, y) && |acked| == ACKED_SIZE
    requires forall i :: 0 <= i < |acked| && acked[i] ==> Backed(Opt, y.receiver, i)
    requires forall i :: 0 <= i < |acked| && y.sender.acked[i] ==> acked[i]
    ensures var b := Slide(acked, y.sender.base);
      && y.sender.base <= b <= y.receiver.base && b <= y.sender.next && !acked[b]
      && forall i :: 0 <= i < b ==> acked[i]
  {
    hide DataInv, AckInv, DataMessage, Content, Segments.Read, Segments.Joined, Slide;
    assert !acked[y.receiver.base];
    assert !acked[y.sender.next];
  }

  lemma {:induction false} ResendIsOriginal(file: seq<bv8>, acked: seq<bool>, from: nat, to: nat, d: Datagram)
    requires to <= |acked|
    ensures d in Resend(file, acked, from, to)
        <==> exists q :: from <= q < to && !acked[q] && d == DataMessage(file, q)
  {
    hide DataMessage;
    if from < to {
      ResendIsOriginal(file, acked, from, to - 1, d);
    }
  }

  lemma TickKeeps(c: Session, y: System, timeout: bool)
    requires Fits(c) && Inv(c, y) && !y.closed
    ensures Inv(c, TickStep(c, y, timeout))
    ensures c.mode == Opt ==> TickStep(c, y, timeout) == y
  {
    hide Acks, ReadPacket, DataMessage, PacketIntact, Content, Segments.Read, Segments.Joined, Resend;
    var y' := TickStep(c, y, timeout);
    if c.mode == Opt {
      forall d | d in Messages(Tick(c, y.sender, timeout).1)
        ensures d in y.data
      {
        ResendIsOriginal(c.file, y.sender.acked, y.sender.base, y.sender.next, d);
      }
      assert y'.data == y.data;
    } else {
      assert y'.data == y.data;
      AdvanceFrame(c, y, y');
    }
  }

  lemma RoundInParts(c: Session, y: System, e: Event)
    ensures var (s, out) := Iterate(c, y.sender, e);
      y.(sender := s, data := y.data + Messages(out))
      == TickStep(c, AbsorbStep(c, TransmitStep(c, y), e.message), e.timeout)
  {
    hide Transmit, Absorb, Tick;
  }

  lemma RoundKeeps(c: Session, y: System, e: Event)
    requires Fits(c) && Inv(c, y) && Enabled(c, y, Round(e))
    ensures Inv(c, Apply(c, y, Round(e)))
  {
    hide Transmit, Absorb, Tick, Inv, Iterate;
    TransmitKeeps(c, y);
    var y1 := TransmitStep(c, y);
    AbsorbKeeps(c, y1, e.message);
    var y2 := AbsorbStep(c, y1, e.message);
    TickKeeps(c, y2, e.timeout);
    RoundInParts(c, y, e);
  }

  /** Writing one cached segment. */
  lemma WriteKeeps(c: Session, s: Sender.State, r: Receiver.State)
    requires Fits(c) && Holdings(c, s, r) && r.cached[r.base]
    ensures Holdings(c, s, r.(base := r.base + 1, output := r.output + Content(r.cache[r.base])))
  {
    hide Content, Segments.Read;
  }

  lemma BaseInCache(c: Session, s: Sender.State, r: Receiver.State)
    requires Fits(c) && Holdings(c, s, r)
    ensures Receiver.Sized(r) && r.base < Receiver.CACHE_SIZE
  {
    hide Content, Segments.Read, Segments.Joined;
  }

  lemma {:induction false} DrainKeeps(c: Session, s: Sender.State, r: Receiver.State)
    requires Fits(c) && Holdings(c, s, r)
    ensures var r' := Receiver.Drain(r);
      && Holdings(c, s, r') && !r'.cached[r'.base] && r.base <= r'.base
      && r'.cached == r.cached && r'.done == r.done
    decreases Receiver.CACHE_SIZE - r.base
  {
    hide Content, Holdings, Fits;
    BaseInCache(c, s, r);
    if r.cached[r.base] {
      WriteKeeps(c, s, r);
      DrainKeeps(c, s, r.(base := r.base + 1, output := r.output + Content(r.cache[r.base])));
    }
  }

  /** Intact data lies below the end of the receiver's window, because the sender's window is not ahead. */
  lemma DataBelowWindowEnd(c: Session, y: System, p: Packet)
    requires Fits(c) && Inv(c, y) && Genuine(c, y, p) && Receiver.IntactData(p)
    ensures p.rtp.seqNum < Limit(c) && p.rtp.seqNum < y.sender.base + c.window
    ensures p.rtp.seqNum < y.receiver.base + c.window
    ensures y.sender.armed && (c.mode == Opt ==> p.rtp.seqNum < y.sender.next)
    ensures p.rtp.length <= PAYLOAD_SIZE && Content(p) == Segments.Read(c.file, p.rtp.seqNum)
  {
    hide DataInv, AckInv, ReceiverInv, Content, Segments.Read, PacketIntact;
  }

  lemma StoreKeeps(c: Session, s: Sender.State, r: Receiver.State, p: Packet)
    requires Fits(c) && Holdings(c, s, r)
    requires p.rtp.seqNum < Limit(c) && p.rtp.seqNum < s.base + c.window && p.rtp.seqNum < r.base + c.window
    requires s.armed && (c.mode == Opt ==> p.rtp.seqNum < s.next)
    requires p.rtp.length <= PAYLOAD_SIZE && Content(p) == Segments.Read(c.file, p.rtp.seqNum)
    ensures var r' := Receiver.Store(c.window, r, p);
      && Holdings(c, s, r') && r'.base == r.base && r'.done == r.done
      && (forall q :: 0 <= q < |r'.cached| && r.cached[q] ==> r'.cached[q])
      && p.rtp.seqNum < |r'.cached| && r'.cached[p.rtp.seqNum]
  {
    hide Content, Segments.Read, Segments.Joined;
  }

  /** More caching and a higher recv_base keep every acknowledgement backed. */
  lemma BackedGrows(c: Session, y: System, r': Receiver.State)
    requires Fits(c) && Inv(c, y) && Holdings(c, y.sender, r') && y.receiver.base <= r'.base
    requires forall q :: 0 <= q < |r'.cached| && y.receiver.cached[q] ==> r'.cached[q]
    requires !r'.cached[r'.base] && r'.done == y.receiver.done
    ensures Inv(c, y.(receiver := r'))
  {
    hide ReadPacket, DataMessage, Content, Segments.Read, Segments.Joined, PacketIntact, Acks;
    var y' := y.(receiver := r');
    forall d | d in y.acks && !y.closed
      ensures AllBacked(c.mode, r', d)
    {
      assert AllBacked(c.mode, y.receiver, d);
    }
    assert DataInv(c, y');
    assert SenderInv(c, y');
  }

  lemma AckAdded(c: Session, y: System, n: nat)
    requires Fits(c) && Inv(c, y) && n < U32 && Backed(c.mode, y.receiver, n)
    ensures Inv(c, y.(acks := y.acks + {Receiver.AckMessage(n)}))
  {
    hide DataInv, ReceiverInv, SenderInv, Acks, Receiver.AckMessage;
    SentAck(n);
    var y' := y.(acks := y.acks + {Receiver.AckMessage(n)});
    assert AllBacked(c.mode, y.receiver, Receiver.AckMessage(n));
    SameButAcks(c, y, y');
  }

  lemma SameButAcks(c: Session, y: System, y': System)
    requires Fits(c) && y' == y.(acks := y'.acks)
    ensures DataInv(c, y') == DataInv(c, y) && ReceiverInv(c, y') == ReceiverInv(c, y)
    ensures SenderInv(c, y') == SenderInv(c, y)
  {
    hide ReadPacket, DataMessage, EndMessage, PacketIntact, Content, Segments.Read, Segments.Joined, Backed;
    assert forall p :: Genuine(c, y', p) == Genuine(c, y, p);
  }

  lemma EndMeansClosed(c: Session, y: System, p: Packet)
    requires Fits(c) && Genuine(c, y, p) && Receiver.Closes(y.receiver, p)
    ensures y.closed
  {
    hide PacketIntact, Content, Segments.Read;
  }

  lemma DoneKeeps(c: Session, y: System)
    requires Fits(c) && Inv(c, y) && y.closed
    ensures Inv(c, y.(receiver := y.receiver.(done := true)))
  {
    hide ReadPacket, DataMessage, EndMessage, PacketIntact, Content, Segments.Read, Segments.Joined, Genuine;
    assert forall p :: Genuine(c, y.(receiver := y.receiver.(done := true)), p) == Genuine(c, y, p) by {
      GenuineIgnoresReceiver(c, y, y.receiver.(done := true));
    }
  }

  lemma GenuineIgnoresReceiver(c: Session, y: System, r: Receiver.State)
    requires Fits(c)
    ensures forall p :: Genuine(c, y.(receiver := r), p) == Genuine(c, y, p)
  {
    hide PacketIntact, Content, Segments.Read;
  }

  lemma ClosedAcks(c: Session, y: System, y': System)
    requires Fits(c) && Inv(c, y) && y.closed && y' == y.(acks := y'.acks)
    ensures Inv(c, y')
  {
    hide DataInv, SenderInv, ReceiverInv;
    SameButAcks(c, y, y');
  }

  lemma CloseKeeps(c: Session, y: System, d: Datagram)
    requires Fits(c) && Inv(c, y) && d in y.data && |d| <= PACKET_SIZE && Receiver.Closes(y.receiver, ReadPacket(d))
    ensures Inv(c, DeliverStep(c, y, d))
  {
    GenuineInFlight(c, y, d);
    hide Inv, Genuine, ReadPacket, Receiver.Closes, Receiver.AckMessage;
    EndMeansClosed(c, y, ReadPacket(d));
    DoneKeeps(c, y);
    ClosedAcks(c, y.(receiver := y.receiver.(done := true)), DeliverStep(c, y, d));
  }

  lemma DeliverKeeps(c: Session, y: System, d: Datagram)
    requires Fits(c) && Inv(c, y) && Enabled(c, y, Deliver(d))
    ensures Inv(c, DeliverStep(c, y, d))
  {
    var p := ReadPacket(d);
    if Receiver.Closes(y.receiver, p) {
      CloseKeeps(c, y, d);
    } else {
      DeliverKeepsOpen(c, y, d);
    }
  }

  lemma GenuineInFlight(c: Session, y: System, d: Datagram)
    requires Fits(c) && Inv(c, y) && d in y.data
    ensures Receiver.Sized(y.receiver)
    ensures 0 < |d| <= PACKET_SIZE && Genuine(c, y, ReadPacket(d)) && ReadPacket(d).rtp.length <= PAYLOAD_SIZE
  {
    hide Genuine, ReadPacket;
  }

  /** What is cached before the drain. */
  function Stored(c: Session, y: System, p: Packet): Receiver.State
    requires Receiver.Sized(y.receiver)
  {
    if Receiver.IntactData(p) then Receiver.Store(c.window, y.receiver, p) else y.receiver
  }

  lemma StoredKeeps(c: Session, y: System, p: Packet)
    requires Fits(c) && Inv(c, y) && Genuine(c, y, p)
    ensures Receiver.Sized(y.receiver)
    ensures var r := Stored(c, y, p);
      && Holdings(c, y.sender, r) && r.base == y.receiver.base && r.done == y.receiver.done
      && (forall q :: 0 <= q < |r.cached| && y.receiver.cached[q] ==> r.cached[q])
      && (Receiver.IntactData(p) ==>
            p.rtp.seqNum < Limit(c) && p.rtp.seqNum < |r.cached| && r.cached[p.rtp.seqNum])
  {
    hide Genuine, Receiver.Store, Receiver.IntactData, DataInv, SenderInv, AckInv, Content;
    if Receiver.IntactData(p) {
      DataBelowWindowEnd(c, y, p);
      StoreKeeps(c, y.sender, y.receiver, p);
    }
  }

  lemma HandleKeeps(c: Session, y: System, p: Packet)
    requires Fits(c) && Inv(c, y) && Genuine(c, y, p) && !Receiver.Closes(y.receiver, p)
    ensures var r' := Receiver.Handle(c.window, y.receiver, p);
      && Inv(c, y.(receiver := r')) && r'.base <= Limit(c) && y.receiver.base <= r'.base
      && (Receiver.IntactData(p) ==> p.rtp.seqNum < Limit(c) && Backed(Opt, r', p.rtp.seqNum))
  {
    hide Genuine, Inv, Receiver.Store, Receiver.Drain, Receiver.IntactData, Receiver.Closes, Content, Segments.Read,
      Segments.Joined;
    StoredKeeps(c, y, p);
    DrainKeeps(c, y.sender, Stored(c, y, p));
    BackedGrows(c, y, Receiver.Drain(Stored(c, y, p)));
  }

  /** What a datagram that does not end the loop changes. */
  lemma DeliverShape(c: Session, y: System, d: Datagram)
    requires Receiver.Sized(y.receiver) && |d| <= PACKET_SIZE && !Receiver.Closes(y.receiver, ReadPacket(d))
    ensures var p := ReadPacket(d);
      var y1 := y.(receiver := Receiver.Handle(c.window, y.receiver, p));
      DeliverStep(c, y, d)
      == if c.mode == Basic then y1.(acks := y1.acks + {Receiver.AckMessage(y1.receiver.base)})
         else if Receiver.IntactData(p) then y1.(acks := y1.acks + {Receiver.AckMessage(p.rtp.seqNum)})
         else y1
  {
    hide ReadPacket, PacketIntact, Receiver.AckMessage, Receiver.Handle;
  }

  lemma DeliverKeepsOpen(c: Session, y: System, d: Datagram)
    requires Fits(c) && Inv(c, y) && Enabled(c, y, Deliver(d)) && !Receiver.Closes(y.receiver, ReadPacket(d))
    ensures Inv(c, DeliverStep(c, y, d))
  {
    hide ReadPacket, Receiver.AckMessage, Receiver.Handle, Receiver.Closes, Receiver.IntactData, Inv, Genuine,
      DeliverStep, Acks;
    GenuineInFlight(c, y, d);
    HandleKeeps(c, y, ReadPacket(d));
    DeliverShape(c, y, d);
    var p := ReadPacket(d);
    var y1 := y.(receiver := Receiver.Handle(c.window, y.receiver, p));
    if c.mode == Basic {
      AckAdded(c, y1, y1.receiver.base);
    } else if Receiver.IntactData(p) {
      AckAdded(c, y1, p.rtp.seqNum);
    }
  }

  lemma TerminateKeeps(c: Session, y: System)
    requires Fits(c) && Inv(c, y) && Enabled(c, y, Terminate)
    ensures Inv(c, Apply(c, y, Terminate))
  {
    hide ReadPacket, DataMessage, EndMessage, Content, Segments.Read, Segments.Joined, PacketIntact, AllBacked;
    SentEnd(y.sender.base);
    var y1 := y.(closed := true);
    assert DataInv(c, y1);
    DataAdded(c, y1, EndMessage(y.sender.base));
    assert SenderInv(c, Apply(c, y, Terminate));
  }

  lemma DamageKeeps(c: Session, y: System, step: Step)
    requires Fits(c) && Inv(c, y) && Enabled(c, y, step) && (step.DamageData? || step.DamageAck?)
    ensures Inv(c, Apply(c, y, step))
  {
    match step {
      case DamageData(d) => DamagedDataKeeps(c, y, d);
      case DamageAck(d) => DamagedAckKeeps(c, y, d);
    }
  }

  lemma DamagedDataKeeps(c: Session, y: System, d: Datagram)
    requires Fits(c) && Inv(c, y) && Enabled(c, y, DamageData(d))
    ensures Inv(c, Apply(c, y, DamageData(d)))
  {
    hide ReadPacket, DataMessage, Content, Segments.Read, Segments.Joined, PacketIntact, DataInv, AckInv;
    DamageIsGenuine(c, y, d);
    DataAdded(c, y, d);
    SameAcks(c, y, Apply(c, y, DamageData(d)));
  }

  lemma DamageIsGenuine(c: Session, y: System, d: Datagram)
    requires Fits(c) && Receiver.Sized(y.receiver) && Enabled(c, y, DamageData(d))
    ensures Genuine(c, y, ReadPacket(d))
  {
    hide ReadPacket, PacketIntact, Content, Segments.Read;
  }

  lemma SameAcks(c: Session, y: System, y': System)
    requires y' == y.(data := y'.data)
    ensures AckInv(c, y') == AckInv(c, y)
  {
    hide Backed, Acks;
  }

  lemma DamagedAckKeeps(c: Session, y: System, d: Datagram)
    requires Fits(c) && Inv(c, y) && Enabled(c, y, DamageAck(d))
    ensures Inv(c, Apply(c, y, DamageAck(d)))
  {
    hide DataInv, SenderInv, Acks, Backed;
    SameButAcks(c, y, Apply(c, y, DamageAck(d)));
  }

  lemma StepKeeps(c: Session, y: System, step: Step)
    requires Fits(c) && Inv(c, y) && Enabled(c, y, step)
    ensures Inv(c, Apply(c, y, step))
  {
    match step
    case Round(e) => RoundKeeps(c, y, e);
    case Terminate => TerminateKeeps(c, y);
    case Deliver(d) => DeliverKeeps(c, y, d);
    case DamageData(d) => DamageKeeps(c, y, step);
    case DamageAck(d) => DamageKeeps(c, y, step);
  }

  /** The invariant holds in every state of every run. */
  lemma {:induction false} RunKeeps(c: Session, y: System, run: seq<Step>)
    requires Fits(c) && Inv(c, y) && Possible(c, y, run)
    ensures Inv(c, After(c, y, run))
    decreases |run|
  {
    hide DataInv, AckInv, SenderInv, Apply, Enabled;
    if run != [] {
      StepKeeps(c, y, run[0]);
      RunKeeps(c, Apply(c, y, run[0]), run[1..]);
    }
  }

  // ----- the damage the checksum is proved to detect is damage the system allows -----

  /** A segment or END damaged within four consecutive bytes of one field may reach the receiver. */
  lemma DamagedDataAllowed(
    c: Session, y: System, typ: bv8, seqNum: nat, content: seq<bv8>, d: Datagram, lo: nat, hi: nat)
    requires Receiver.Sized(y.receiver) && |content| <= PAYLOAD_SIZE && seqNum < U32
    requires ChangedWithin(Wire(MakePacket(typ, seqNum, content)), d, lo, hi)
    requires hi <= lo + 4 && WithinOneField(lo, hi)
    ensures Enabled(c, y, DamageData(d))
  {
    hide Wire, MakePacket, ReadPacket, PacketIntact;
    DamagedPacketRejected(typ, seqNum, content, d, lo, hi);
    PacketRoundTrip(typ, seqNum, content);
  }

  /** An ACK damaged within four consecutive bytes before or inside its checksum may reach the sender. */
  lemma DamagedAckAllowed(c: Session, y: System, n: nat, d: Datagram, lo: nat, hi: nat)
    requires Receiver.Sized(y.receiver) && n < U32
    requires ChangedWithin(Receiver.AckMessage(n), d, lo, hi) && hi <= lo + 4 && (hi <= 7 || 7 <= lo)
    ensures Enabled(c, y, DamageAck(d))
  {
    hide HeaderBytes, MakeHeader, ReadHeader, HeaderIntact;
    DamagedHeaderRejected(ACK, n, d, lo, hi);
    assert d[0 * HEADER_SIZE..1 * HEADER_SIZE] == d;
    assert AckNumbers(d, 1) == AckNumbers(d, 0);
  }

  // ----- the theorems -----

  /** Over every run with loss, delay, reordering, repetition and detected damage on both channels,
      the bytes written are the first recv_base segments, a prefix of the file. */
  lemma OutputIsPrefix(c: Session, run: seq<Step>)
    requires Fits(c) && Possible(c, Start(), run)
    ensures var r := After(c, Start(), run).receiver;
      && r.output == Segments.Joined(c.file, r.base)
      && r.output == c.file[..Min(r.base * 1461, |c.file|)]
  {
    InvAtStart(c);
    RunKeeps(c, Start(), run);
    hide Start, After, Possible, DataInv, AckInv, SenderInv;
    Segments.JoinedIsPrefix(c.file, After(c, Start(), run).receiver.base);
  }

  /** Once the receiver's loop has ended, it has written exactly the file. */
  lemma OutputIsFile(c: Session, run: seq<Step>)
    requires Fits(c) && Possible(c, Start(), run) && After(c, Start(), run).receiver.done
    ensures After(c, Start(), run).receiver.output == c.file
  {
    InvAtStart(c);
    RunKeeps(c, Start(), run);
    hide Start, After, Possible, DataInv, AckInv;
    Segments.JoinedIsFile(c.file, After(c, Start(), run).receiver.base);
  }

  /** Once the sender's loop has ended, the receiver has already written the whole file. */
  lemma FinishedMeansDelivered(c: Session, run: seq<Step>)
    requires Fits(c) && Possible(c, Start(), run) && Finished(c, After(c, Start(), run).sender)
    ensures After(c, Start(), run).receiver.output == c.file
  {
    InvAtStart(c);
    RunKeeps(c, Start(), run);
    hide Start, After, Possible, DataInv, AckInv;
    Segments.JoinedIsFile(c.file, After(c, Start(), run).receiver.base);
  }
}
