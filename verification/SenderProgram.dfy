/** sender_def.c as a class: the globals are fields, the loops update them in place, and every
    method is proved against the functions of module Sender. */
module SenderProgram {
  import opened Words
  import opened Rtp
  import opened Sender
  import Segments

  class RtpSender {
    var sendBase: nat
    var nextSeqNum: nat
    var window: nat
    var armed: bool
    const acked: array<bool>

    ghost function State(): State
      reads this, acked
    {
      Sender.State(sendBase, nextSeqNum, armed, acked[..])
    }

    ghost predicate Valid() {
      acked.Length == ACKED_SIZE
    }

    constructor (windowSize: nat)
      ensures Valid() && fresh(acked) && window == windowSize && State() == Initial() && acked.Length == 100000
    {
      sendBase, nextSeqNum, window, armed := 0, 0, windowSize, false;
      acked := new bool[ACKED_SIZE](_ => false);
      new;
      assert acked[..] == Cleared();
    }

    /** The sending part of a round, for either mode. */
    method TransmitNext(mode: Mode, file: seq<bv8>) returns (sent: seq<Datagram>)
      requires Valid()
      modifies this
      ensures window == old(window)
      ensures (State(), sent) == Transmit(Session(mode, file, window), old(State()))
    {
      hide DataMessage;
      sent := [];
      if mode == Opt && nextSeqNum < sendBase {
        nextSeqNum := sendBase;
      }
      if nextSeqNum < Add32(sendBase, window) && (mode == Basic ==> nextSeqNum >= sendBase) {
        sent := [DataMessage(file, nextSeqNum)];
        nextSeqNum := Add32(nextSeqNum, 1);
        armed := true;
      }
    }

    /** The ACK loop of sendMessage. */
    method ReceiveAcks(message: Datagram)
      requires Valid()
      modifies this
      ensures window == old(window)
      ensures State() == old(State()).(base := RaiseBase(old(sendBase), Acks(message)))
    {
      hide Accepted, HeaderAt;
      var remaining, cnt := |message|, 0;
      while remaining >= HEADER_SIZE
        invariant remaining == |message| - cnt * HEADER_SIZE && remaining >= 0
        invariant window == old(window)
        invariant State() == old(State()).(base := RaiseBase(old(sendBase), AckNumbers(message, cnt)))
      {
        var h := HeaderAt(message, cnt);
        if Accepted(h) {
          ghost var before := AckNumbers(message, cnt);
          assert (before + [h.seqNum])[..|before|] == before;
          if sendBase < h.seqNum {
            sendBase := h.seqNum;
          }
        } else {
          assert AckNumbers(message, cnt + 1) == AckNumbers(message, cnt);
        }
        cnt, remaining := cnt + 1, remaining - HEADER_SIZE;
      }
      assert cnt == |message| / HEADER_SIZE;
    }

    /** The ACK loop of sendMessageOpt: an accepted number is written to acked[] unchecked. */
    method ReceiveSelectiveAcks(message: Datagram)
      requires Valid() && forall a :: a in Acks(message) ==> a < acked.Length
      modifies acked
      ensures State() == old(State()).(acked := Mark(old(acked[..]), Acks(message)))
    {
      hide Accepted, HeaderAt, Mark, AckNumbers;
      var remaining, cnt := |message|, 0;
      MarkNone(acked[..], message);
      while remaining >= HEADER_SIZE
        invariant remaining == |message| - cnt * HEADER_SIZE && remaining >= 0
        invariant acked[..] == Mark(old(acked[..]), AckNumbers(message, cnt))
      {
        var h := HeaderAt(message, cnt);
        NextAck(message, cnt);
        if Accepted(h) {
          MarkNext(old(acked[..]), AckNumbers(message, cnt), h.seqNum);
          acked[h.seqNum] := true;
        }
        cnt, remaining := cnt + 1, remaining - HEADER_SIZE;
      }
      assert cnt == |message| / HEADER_SIZE;
    }

    /** The loop that moves send_base over the acknowledged numbers. */
    method SlideBase()
      requires Valid() && Slide(acked[..], sendBase) < acked.Length
      modifies this
      ensures window == old(window)
      ensures State() == old(State()).(base := Slide(acked[..], old(sendBase)))
    {
      while acked[sendBase]
        invariant window == old(window) && sendBase < acked.Length
        invariant Slide(acked[..], sendBase) == Slide(acked[..], old(sendBase))
        invariant State() == old(State()).(base := sendBase)
        decreases acked.Length - sendBase
      {
        sendBase := sendBase + 1;
      }
    }

    /** send_again. */
    method SendAgain(file: seq<bv8>) returns (sent: seq<Datagram>)
      requires Valid() && nextSeqNum <= acked.Length
      ensures sent == Resend(file, acked[..], sendBase, nextSeqNum)
    {
      hide DataMessage;
      sent := [];
      var p := sendBase;
      while p < nextSeqNum
        invariant sendBase <= p && (p <= nextSeqNum || p == sendBase)
        invariant sent == Resend(file, acked[..], sendBase, p)
      {
        if !acked[p] {
          sent := sent + [DataMessage(file, p)];
        }
        p := p + 1;
      }
    }

    /** sendMessage, over the environment's events. */
    method SendMessage(file: seq<bv8>, events: seq<Event>) returns (sent: seq<Datagram>)
      requires Valid()
      modifies this
      ensures window == old(window)
      ensures (State(), sent) == Run(Session(Basic, file, window), old(State()).(armed := false), events)
    {
      hide Transmit, Acks, RaiseBase;
      ghost var c := Session(Basic, file, window);
      ghost var start := State().(armed := false);
      armed, sent := false, [];
      var i := 0;
      while i < |events| && sendBase < Segments.Count(file)
        invariant i <= |events| && window == old(window)
        invariant (State(), sent) == Run(c, start, events[..i])
      {
        var e := events[i];
        var out := TransmitNext(Basic, file);
        ReceiveAcks(e.message);
        if e.timeout && armed {
          nextSeqNum := sendBase;
        }
        sent := sent + out;
        assert events[..i + 1][..i] == events[..i];
        assert out + [] == out;
        i := i + 1;
      }
      RunStops(c, start, events, i);
      assert events[..|events|] == events;
    }

    /** sendMessageOpt, over the environment's events. */
    method SendMessageOpt(file: seq<bv8>, events: seq<Event>) returns (sent: seq<Datagram>)
      requires Valid()
      requires RunInBounds(Session(Opt, file, window), State().(armed := false, acked := Cleared()), events)
      modifies this, acked
      ensures window == old(window)
      ensures (State(), sent)
           == Run(Session(Opt, file, window), old(State()).(armed := false, acked := Cleared()), events)
    {
      hide Iterate, InBounds, RunInBounds;
      ghost var c := Session(Opt, file, window);
      ghost var start := State().(armed := false, acked := Cleared());
      forall k | 0 <= k < acked.Length {
        acked[k] := false;
      }
      armed, sent := false, [];
      assert acked[..] == Cleared();
      var i := 0;
      while i < |events| && sendBase < Segments.Count(file)
        invariant i <= |events| && window == old(window)
        invariant (State(), sent) == Run(c, start, events[..i])
      {
        assert events[..i + 1][..i] == events[..i];
        EventInBounds(c, start, events, i);
        var out := RoundOpt(file, events[i]);
        sent := sent + out;
        i := i + 1;
      }
      RunStops(c, start, events, i);
      assert events[..|events|] == events;
    }

    /** One round of the loop of sendMessageOpt. */
    method RoundOpt(file: seq<bv8>, e: Event) returns (sent: seq<Datagram>)
      requires Valid() && InBounds(Session(Opt, file, window), State(), e)
      modifies this, acked
      ensures window == old(window)
      ensures (State(), sent) == Iterate(Session(Opt, file, window), old(State()), e)
    {
      hide Transmit, Acks, Mark, Slide, Resend;
      sent := TransmitNext(Opt, file);
      ReceiveSelectiveAcks(e.message);
      SlideBase();
      if e.timeout && armed {
        var again := SendAgain(file);
        sent := sent + again;
      } else {
        assert sent + [] == sent;
      }
    }
  }

  lemma {:induction false} AckNumbersGrow(message: Datagram, n: nat, m: nat)
    requires n <= m && m * HEADER_SIZE <= |message|
    ensures AckNumbers(message, n) <= AckNumbers(message, m)
    decreases m
  {
    hide Accepted, HeaderAt;
    if n < m {
      AckNumbersGrow(message, n, m - 1);
    }
  }

  /** One more header of a message, whose number, if accepted, is among all the message's numbers. */
  lemma NextAck(message: Datagram, cnt: nat)
    requires (cnt + 1) * HEADER_SIZE <= |message|
    ensures var h := HeaderAt(message, cnt);
      && AckNumbers(message, cnt + 1)
         == (if Accepted(h) then AckNumbers(message, cnt) + [h.seqNum] else AckNumbers(message, cnt))
      && (Accepted(h) ==> h.seqNum in Acks(message))
  {
    hide Accepted, HeaderAt;
    var h := HeaderAt(message, cnt);
    AckNumbersGrow(message, cnt + 1, |message| / HEADER_SIZE);
    if Accepted(h) {
      assert h.seqNum == AckNumbers(message, cnt + 1)[|AckNumbers(message, cnt)|];
      assert h.seqNum == Acks(message)[|AckNumbers(message, cnt)|];
    }
  }

  lemma MarkNone(acked: seq<bool>, message: Datagram)
    ensures Mark(acked, AckNumbers(message, 0)) == acked
  {
  }

  lemma MarkNext(acked: seq<bool>, acks: seq<nat>, a: nat)
    requires a < |acked|
    ensures Mark(acked, acks + [a]) == Mark(acked, acks)[a := true]
  {
    assert (acks + [a])[..|acks|] == acks;
  }

  lemma EventInBounds(c: Session, st: State, events: seq<Event>, i: nat)
    requires RunInBounds(c, st, events) && i < |events| && !Finished(c, Run(c, st, events[..i]).0)
    ensures InBounds(c, Run(c, st, events[..i]).0, events[i])
  {
    hide Run, InBounds, Finished;
  }

  /** Events after the loop has ended change nothing. */
  lemma {:induction false} RunStops(c: Session, st: State, events: seq<Event>, i: nat)
    requires i <= |events| && (i < |events| ==> Finished(c, Run(c, st, events[..i]).0))
    ensures Run(c, st, events) == Run(c, st, events[..i])
  {
    hide Iterate;
    if i == |events| {
      assert events[..i] == events;
    } else {
      var n := |events| - 1;
      assert events[..n][..i] == events[..i];
      RunStops(c, st, events[..n], i);
    }
  }
}
