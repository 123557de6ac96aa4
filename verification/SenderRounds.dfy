/** What one round of either sending loop does, said without the steps it is made of: which segments
    it sends, in which order, and the counters it leaves. */
module SenderRounds {
  import opened Words
  import opened Rtp
  import opened Sender
  import opened Transfer
  import opened TransferSafety
  import opened TransferBounds
  import Receiver
  import Segments

  /** The messages of the segments `qs`, in this order. */
  predicate AreSegments(file: seq<bv8>, out: seq<Datagram>, qs: seq<nat>) {
    |out| == |qs| && forall i :: 0 <= i < |qs| ==> out[i] == DataMessage(file, qs[i])
  }

  predicate Increasing(qs: seq<nat>) {
    forall i, j :: 0 <= i < j < |qs| ==> qs[i] < qs[j]
  }

  /** The unmarked numbers from `from` to `to - 1`, in increasing order. */
  ghost predicate AreUnmarked(acked: seq<bool>, from: nat, to: nat, qs: seq<nat>) {
    Increasing(qs) && forall q: nat :: q in qs <==> from <= q < to && q < |acked| && !acked[q]
  }

  lemma MarkedNext(acked: seq<bool>, from: nat, to: nat, qs: seq<nat>)
    requires from < to <= |acked| && acked[to - 1] && AreUnmarked(acked, from, to - 1, qs)
    ensures AreUnmarked(acked, from, to, qs)
  {
    hide Increasing;
  }

  lemma UnmarkedNext(acked: seq<bool>, from: nat, to: nat, qs: seq<nat>)
    requires from < to <= |acked| && !acked[to - 1] && AreUnmarked(acked, from, to - 1, qs)
    ensures AreUnmarked(acked, from, to, qs + [to - 1])
  {
    forall i | 0 <= i < |qs|
      ensures qs[i] < to - 1
    {
      var q := qs[i];
      assert q in qs;
    }
  }

  lemma {:induction false} ResendInOrder(file: seq<bv8>, acked: seq<bool>, from: nat, to: nat) returns (qs: seq<nat>)
    requires to <= |acked|
    ensures AreSegments(file, Resend(file, acked, from, to), qs) && AreUnmarked(acked, from, to, qs)
  {
    hide DataMessage, AreUnmarked;
    if to <= from {
      qs := [];
      NoneUnmarked(acked, from, to);
    } else {
      qs := ResendInOrder(file, acked, from, to - 1);
      if acked[to - 1] {
        MarkedNext(acked, from, to, qs);
      } else {
        UnmarkedNext(acked, from, to, qs);
        qs := qs + [to - 1];
      }
    }
  }

  lemma NoneUnmarked(acked: seq<bool>, from: nat, to: nat)
    requires to <= from
    ensures AreUnmarked(acked, from, to, [])
  {
  }

  /** Where the sending part of a round starts: Opt first catches up with send_base. */
  function FirstToSend(c: Session, st: State): nat {
    if c.mode == Opt && st.next < st.base then st.base else st.next
  }

  /** One segment is sent if its number is in the window of the round's start. */
  lemma RoundSendsFirst(c: Session, st: State)
    requires st.base + c.window < 0x1_0000_0000
    ensures var n, (s, out) := FirstToSend(c, st), Transmit(c, st);
      if st.base <= n < st.base + c.window
      then out == [DataMessage(c.file, n)] && s == st.(next := n + 1, armed := true)
      else out == [] && s == st.(next := n)
  {
    hide DataMessage;
  }

  /** A round of the cumulative loop: it sends the segment at next_seq_num if that is in the window,
      raises send_base to the largest number read, and after a timeout goes back there. */
  lemma BasicRound(c: Session, st: State, e: Event)
    requires c.mode == Basic && st.base + c.window < 0x1_0000_0000
    ensures var (s, out) := Iterate(c, st, e);
      var sends := st.base <= st.next < st.base + c.window;
      && out == (if sends then [DataMessage(c.file, st.next)] else [])
      && s.armed == (st.armed || sends) && s.acked == st.acked
      && s.base >= st.base && (forall a :: a in Acks(e.message) ==> a <= s.base)
      && (s.base == st.base || s.base in Acks(e.message))
      && s.next == (if e.timeout && s.armed then s.base else if sends then st.next + 1 else st.next)
  {
    hide DataMessage, Acks, RaiseBase, Transmit;
    RoundSendsFirst(c, st);
    RaiseBaseIsMax(st.base, Acks(e.message));
  }

  /** The counters after a round of the selective loop: it marks the numbers read and moves send_base
      to the first unmarked number. */
  lemma OptCounters(c: Session, st: State, e: Event)
    requires c.mode == Opt && st.base + c.window < 0x1_0000_0000 && InBounds(c, st, e)
    ensures var s := Iterate(c, st, e).0;
      var n := if st.next < st.base then st.base else st.next;
      var sends := n < st.base + c.window;
      && s.next == (if sends then n + 1 else n) && s.armed == (st.armed || sends)
      && |s.acked| == |st.acked|
      && (forall i :: 0 <= i < |s.acked| ==> (s.acked[i] <==> st.acked[i] || i in Acks(e.message)))
      && st.base <= s.base < |s.acked| && !s.acked[s.base] && (forall i :: st.base <= i < s.base ==> s.acked[i])
      && s.next <= |s.acked|
  {
    hide DataMessage, Acks, Mark, Slide, Transmit, Resend;
    RoundSendsFirst(c, st);
    var s := Iterate(c, st, e).0;
    forall i | 0 <= i < |s.acked|
      ensures s.acked[i] <==> st.acked[i] || i in Acks(e.message)
    {
      MarkIsUnion(st.acked, Acks(e.message), i);
    }
  }

  /** The messages of such a round: the segment at next_seq_num if that is in the window, and after a
      timeout the unmarked segments from send_base to next_seq_num - 1, once each, in increasing
      order, as the ACKs read in the round have left them. */
  lemma OptRound(c: Session, st: State, e: Event) returns (again: seq<nat>)
    requires c.mode == Opt && st.base + c.window < 0x1_0000_0000 && InBounds(c, st, e)
    ensures var (s, out) := Iterate(c, st, e);
      var n := if st.next < st.base then st.base else st.next;
      && AreSegments(c.file, out, (if n < st.base + c.window then [n] else []) + again)
      && (if e.timeout && s.armed then AreUnmarked(s.acked, s.base, s.next, again) else again == [])
  {
    hide DataMessage, Acks, Mark, Slide, Transmit, Resend, AreUnmarked;
    RoundSendsFirst(c, st);
    OptCounters(c, st, e);
    var s := Iterate(c, st, e).0;
    again := [];
    if e.timeout && s.armed {
      again := ResendInOrder(c.file, s.acked, s.base, s.next);
    }
  }

  /** In every reachable state of an unfinished transfer the timer runs when a round looks at it, so
      every timeout of the selective loop resends exactly the unmarked part of the window. */
  lemma TimeoutSendsWindow(c: Session, y: System, e: Event) returns (again: seq<nat>)
    requires Fits(c) && Reachable(c, y) && Receiver.Sized(y.receiver) && Enabled(c, y, Round(e))
    requires c.mode == Opt && e.timeout
    ensures var st, (s, out) := y.sender, Iterate(c, y.sender, e);
      && AreSegments(c.file, out, (if st.next < st.base + c.window then [st.next] else []) + again)
      && AreUnmarked(s.acked, s.base, s.next, again)
  {
    hide Reachable, Inv, Iterate, DataMessage, InBounds, Acks, AreSegments, AreUnmarked, CatchUp;
    ReachableInv(c, y);
    OptWindow(c, y);
    SmallWindow(c, y);
    RoundInBounds(c, y, e);
    OptCounters(c, y.sender, e);
    ArmedInRound(c, y);
    again := OptRound(c, y.sender, e);
  }

  lemma SmallWindow(c: Session, y: System)
    requires Fits(c) && Inv(c, y)
    ensures y.sender.base + c.window < 0x1_0000_0000
  {
    BaseBelowLimit(c, y);
  }

  lemma ArmedInRound(c: Session, y: System)
    requires Fits(c) && Inv(c, y) && !y.closed && !Finished(c, y.sender)
    ensures y.sender.armed || FirstToSend(c, y.sender) < y.sender.base + c.window
  {
    hide Inv, Transmit;
    SmallWindow(c, y);
    TransmitKeeps(c, y);
    RoundSendsFirst(c, y.sender);
  }
}
