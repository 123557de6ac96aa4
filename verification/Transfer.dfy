/** Sender, receiver and the two channels between them as one step system, for both modes. */
module Transfer {
  import opened Words
  import opened Rtp
  import opened Sender
  import Receiver
  import Segments

  /** The messages ever put on a channel stay there: a channel may lose, delay, reorder and repeat. */
  datatype System = System(
    sender: Sender.State,
    closed: bool,            // terminateSender has been called
    receiver: Receiver.State,
    data: set<Datagram>,     // towards the receiver
    acks: set<Datagram>)     // towards the sender

  datatype Step =
    | Round(event: Event)    // the sender's loop
    | Terminate              // terminateSender, after the loop
    | Deliver(d: Datagram)   // the receiver's loop
    | DamageData(d: Datagram)
    | DamageAck(d: Datagram)

  function Messages(ds: seq<Datagram>): set<Datagram> {
    set d | d in ds
  }

  function Start(): System {
    System(Sender.Initial(), false, Receiver.Initial(), {}, {})
  }

  predicate Enabled(c: Session, y: System, step: Step)
    requires Receiver.Sized(y.receiver)
  {
    match step
    case Round(e) => !y.closed && !Finished(c, y.sender) && (e.message == [] || e.message in y.acks)
    case Terminate => !y.closed && Finished(c, y.sender)
    case Deliver(d) => !y.receiver.done && d in y.data && 0 < |d| <= PACKET_SIZE
    // what is left of a damaged message: anything the test at the other end rejects
    case DamageData(d) =>
      0 < |d| <= PACKET_SIZE && ReadPacket(d).rtp.length <= PAYLOAD_SIZE && !PacketIntact(ReadPacket(d))
    case DamageAck(d) => Acks(d) == []
  }

  function TransmitStep(c: Session, y: System): System {
    var (s, out) := Transmit(c, y.sender);
    y.(sender := s, data := y.data + Messages(out))
  }

  function AbsorbStep(c: Session, y: System, message: Datagram): System {
    y.(sender := Absorb(c, y.sender, message))
  }

  function TickStep(c: Session, y: System, timeout: bool): System {
    var (s, out) := Tick(c, y.sender, timeout);
    y.(sender := s, data := y.data + Messages(out))
  }

  function DeliverStep(c: Session, y: System, d: Datagram): System
    requires Receiver.Sized(y.receiver) && |d| <= PACKET_SIZE
  {
    var p := ReadPacket(d);
    y.(receiver := Receiver.Handle(c.window, y.receiver, p),
       acks := y.acks + Messages(Receiver.Replies(c.mode, c.window, y.receiver, p)))
  }

  function Apply(c: Session, y: System, step: Step): (y': System)
    requires Receiver.Sized(y.receiver) && Enabled(c, y, step)
    ensures Receiver.Sized(y'.receiver)
  {
    match step
    case Round(e) =>
      var (s, out) := Iterate(c, y.sender, e);
      y.(sender := s, data := y.data + Messages(out))
    case Terminate => y.(closed := true, data := y.data + {EndMessage(y.sender.base)})
    case Deliver(d) => DeliverStep(c, y, d)
    case DamageData(d) => y.(data := y.data + {d})
    case DamageAck(d) => y.(acks := y.acks + {d})
  }

  /** Every step of the run can be taken when its turn comes. */
  predicate Possible(c: Session, y: System, run: seq<Step>)
    requires Receiver.Sized(y.receiver)
    decreases |run|
  {
    run == [] || (Enabled(c, y, run[0]) && Possible(c, Apply(c, y, run[0]), run[1..]))
  }

  function After(c: Session, y: System, run: seq<Step>): (y': System)
    requires Receiver.Sized(y.receiver) && Possible(c, y, run)
    ensures Receiver.Sized(y'.receiver)
    decreases |run|
  {
    if run == [] then y else After(c, Apply(c, y, run[0]), run[1..])
  }

  // ----- what holds in every reachable state -----

  /** One past the largest sequence number a run can use. */
  function Limit(c: Session): nat
    requires c.window >= 1
  {
    Segments.Count(c.file) + c.window - 1
  }

  /** The sizes the program's arrays allow; a 100 MB file and a window of 512 are within them. */
  predicate Fits(c: Session) {
    1 <= c.window && Segments.Count(c.file) + c.window <= Receiver.CACHE_SIZE
  }

  /** A packet that passes the checksum test is a segment that was sent, or the final END. */
  predicate Genuine(c: Session, y: System, p: Packet)
    requires Fits(c)
  {
    PacketIntact(p) ==>
      && p.rtp.length <= PAYLOAD_SIZE
      && (p.rtp.typ == DATA ==>
            && y.sender.armed
            && p.rtp.seqNum < Limit(c) && p.rtp.seqNum < y.sender.base + c.window
            && (c.mode == Opt ==> p.rtp.seqNum < y.sender.next)
            && Content(p) == Segments.Read(c.file, p.rtp.seqNum))
      && (p.rtp.typ == END ==> y.closed && p.rtp.seqNum == y.sender.base)
  }

  ghost predicate DataInv(c: Session, y: System)
    requires Fits(c)
  {
    forall d :: d in y.data ==>
      0 < |d| <= PACKET_SIZE && ReadPacket(d).rtp.length <= PAYLOAD_SIZE && Genuine(c, y, ReadPacket(d))
  }

  /** An acknowledged number is one the receiver has passed (Basic) or has cached (Opt). */
  predicate Backed(mode: Mode, r: Receiver.State, a: nat) {
    match mode
    case Basic => a <= r.base
    case Opt => a < |r.cached| && r.cached[a]
  }

  predicate AllBacked(mode: Mode, r: Receiver.State, message: Datagram) {
    forall a :: a in Acks(message) ==> Backed(mode, r, a)
  }

  ghost predicate AckInv(c: Session, y: System) {
    !y.closed ==> forall d :: d in y.acks ==> AllBacked(c.mode, y.receiver, d)
  }

  ghost predicate SenderInv(c: Session, y: System)
    requires Fits(c)
  {
    var s := y.sender;
    && |s.acked| == ACKED_SIZE
    && s.base <= y.receiver.base
    && s.next <= s.base + c.window && s.next <= Limit(c)
    && (!s.armed ==> s.next == 0)
    && (y.closed ==> Finished(c, s) && EndMessage(s.base) in y.data)
    && (c.mode == Opt ==>
          && s.base <= s.next
          && (forall a :: 0 <= a < s.base ==> s.acked[a])
          && !s.acked[s.base]
          && (forall a :: 0 <= a < |s.acked| && s.acked[a] ==> Backed(Opt, y.receiver, a))
          && (forall q :: 0 <= q < s.next ==> DataMessage(c.file, q) in y.data))
  }

  /** What the receiver holds are segments, and it has written those below recv_base in order. */
  ghost predicate Holdings(c: Session, s: Sender.State, r: Receiver.State)
    requires Fits(c)
  {
    && Receiver.Sized(r)
    && r.base <= Limit(c)
    && (forall q :: 0 <= q < r.base ==> r.cached[q])
    && (forall q :: 0 <= q < |r.cached| && r.cached[q] ==>
          && s.armed && q < Limit(c) && q < s.base + c.window && (c.mode == Opt ==> q < s.next)
          && Content(r.cache[q]) == Segments.Read(c.file, q) && r.cache[q].rtp.length <= PAYLOAD_SIZE)
    && r.output == Segments.Joined(c.file, r.base)
  }

  ghost predicate ReceiverInv(c: Session, y: System)
    requires Fits(c)
  {
    Holdings(c, y.sender, y.receiver) && !y.receiver.cached[y.receiver.base] && (y.receiver.done ==> y.closed)
  }

  ghost predicate Inv(c: Session, y: System)
    requires Fits(c)
  {
    ReceiverInv(c, y) && SenderInv(c, y) && DataInv(c, y) && AckInv(c, y)
  }
}
