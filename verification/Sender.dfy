/** The sending side: what one round of the loops of sendMessage and sendMessageOpt does. */
module Sender {
  import opened Words
  import opened Rtp
  import Segments

  const ACKED_SIZE: nat := 100000

  datatype Session = Session(mode: Mode, file: seq<bv8>, window: nat)

  /** send_base, next_seq_num, whether the retransmission timer has been started, and acked[]. */
  datatype State = State(base: nat, next: nat, armed: bool, acked: seq<bool>)

  /** What the environment does during one round: the message read (empty for none), and
      whether the timer, if started, has expired. */
  datatype Event = Event(message: Datagram, timeout: bool)

  function Cleared(): seq<bool> { seq(ACKED_SIZE, _ => false) }

  function Initial(): State { State(0, 0, false, Cleared()) }

  function DataMessage(file: seq<bv8>, s: nat): Datagram {
    Wire(MakePacket(DATA, s, Segments.Read(file, s)))
  }

  /** terminateSender's message. */
  function EndMessage(s: nat): Datagram {
    HeaderBytes(MakeHeader(END, 0, s))
  }

  // ----- reading ACKs -----

  function HeaderAt(message: Datagram, k: nat): Header
    requires (k + 1) * HEADER_SIZE <= |message|
  {
    ReadHeader(message[k * HEADER_SIZE..(k + 1) * HEADER_SIZE])
  }

  predicate Accepted(h: Header) {
    h.typ == ACK && HeaderIntact(h)
  }

  /** The numbers of the accepted ACKs among the first `n` headers of a message. */
  function AckNumbers(message: Datagram, n: nat): seq<nat>
    requires n * HEADER_SIZE <= |message|
  {
    if n == 0 then []
    else
      var h := HeaderAt(message, n - 1);
      AckNumbers(message, n - 1) + (if Accepted(h) then [h.seqNum] else [])
  }

  function Acks(message: Datagram): seq<nat> {
    AckNumbers(message, |message| / HEADER_SIZE)
  }

  function RaiseBase(base: nat, acks: seq<nat>): nat {
    if acks == [] then base
    else
      var b := RaiseBase(base, acks[..|acks| - 1]);
      if b < acks[|acks| - 1] then acks[|acks| - 1] else b
  }

  /** acked[] after the numbers `acks`; a number past the array is out of bounds in the program. */
  function Mark(acked: seq<bool>, acks: seq<nat>): (r: seq<bool>)
    ensures |r| == |acked|
  {
    if acks == [] then acked
    else
      var a, marked := acks[|acks| - 1], Mark(acked, acks[..|acks| - 1]);
      if a < |marked| then marked[a := true] else marked
  }

  /** The first number from `base` on that is not marked, or the end of the array. */
  function Slide(acked: seq<bool>, base: nat): (r: nat)
    ensures base <= r
    ensures base <= |acked| ==> r <= |acked|
    ensures forall i :: base <= i < r ==> i < |acked| && acked[i]
    ensures r < |acked| ==> !acked[r]
    decreases |acked| - base
  {
    if base < |acked| && acked[base] then Slide(acked, base + 1) else base
  }

  /** send_again over the numbers `from` to `to - 1`. */
  function Resend(file: seq<bv8>, acked: seq<bool>, from: nat, to: nat): seq<Datagram> {
    if to <= from then []
    else
      Resend(file, acked, from, to - 1)
      + (if to - 1 < |acked| && acked[to - 1] then [] else [DataMessage(file, to - 1)])
  }

  // ----- one round of the loop -----

  function CatchUp(c: Session, st: State): State {
    if c.mode == Opt && st.next < st.base then st.(next := st.base) else st
  }

  predicate WindowOpen(c: Session, st: State) {
    st.next < Add32(st.base, c.window) && (c.mode == Basic ==> st.next >= st.base)
  }

  function Transmit(c: Session, st: State): (State, seq<Datagram>) {
    var s := CatchUp(c, st);
    if WindowOpen(c, s) then (s.(next := Add32(s.next, 1), armed := true), [DataMessage(c.file, s.next)])
    else (s, [])
  }

  function Absorb(c: Session, st: State, message: Datagram): State {
    match c.mode
    case Basic => st.(base := RaiseBase(st.base, Acks(message)))
    case Opt =>
      var acked := Mark(st.acked, Acks(message));
      st.(acked := acked, base := Slide(acked, st.base))
  }

  function Tick(c: Session, st: State, timeout: bool): (State, seq<Datagram>) {
    if !timeout || !st.armed then (st, [])
    else match c.mode
      case Basic => (st.(next := st.base), [])
      case Opt => (st, Resend(c.file, st.acked, st.base, st.next))
  }

  predicate Finished(c: Session, st: State) {
    st.base >= Segments.Count(c.file)
  }

  function Iterate(c: Session, st: State, e: Event): (State, seq<Datagram>) {
    var (s1, out1) := Transmit(c, st);
    var (s2, out2) := Tick(c, Absorb(c, s1, e.message), e.timeout);
    (s2, out1 + out2)
  }

  /** Every array access of the round is in bounds. */
  predicate InBounds(c: Session, st: State, e: Event) {
    c.mode == Opt ==>
      var s := Absorb(c, Transmit(c, st).0, e.message);
      && (forall a :: a in Acks(e.message) ==> a < |st.acked|)
      && s.base < |st.acked| && s.next <= |st.acked|
  }

  /** The whole loop over the environment's events; it stops once every segment is acknowledged. */
  function Run(c: Session, st: State, events: seq<Event>): (State, seq<Datagram>) {
    if events == [] then (st, [])
    else
      var n := |events| - 1;
      var (s, out) := Run(c, st, events[..n]);
      if Finished(c, s) then (s, out)
      else
        var (s', out') := Iterate(c, s, events[n]);
        (s', out + out')
  }

  predicate RunInBounds(c: Session, st: State, events: seq<Event>) {
    forall k :: 0 <= k < |events| ==>
      var s := Run(c, st, events[..k]).0;
      !Finished(c, s) ==> InBounds(c, s, events[k])
  }
}
