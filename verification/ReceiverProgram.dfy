/** receiver_def.c as a class: the globals and the output file are fields, and every method is
    proved against the functions of module Receiver. */
module ReceiverProgram {
  import opened Words
  import opened Rtp
  import opened Receiver

  class RtpReceiver {
    var recvBase: nat
    var window: nat
    const packetCache: array<Packet>
    const cached: array<bool>
    var output: seq<bv8>

    ghost function State(done: bool): State
      reads this, packetCache, cached
    {
      Receiver.State(recvBase, packetCache[..], cached[..], output, done)
    }

    ghost predicate Valid() {
      packetCache.Length == cached.Length == CACHE_SIZE
    }

    constructor (windowSize: nat)
      ensures Valid() && fresh(packetCache) && fresh(cached)
      ensures window == windowSize && State(false) == Initial()
      ensures packetCache.Length == 80000 && cached.Length == 80000
    {
      recvBase, window, output := 0, windowSize, [];
      packetCache := new Packet[CACHE_SIZE](_ => EMPTY_PACKET);
      cached := new bool[CACHE_SIZE](_ => false);
      new;
      assert packetCache[..] == Initial().cache && cached[..] == Initial().cached;
    }

    /** The window test and the two array writes. */
    method StorePacket(p: Packet)
      requires Valid() && (InWindow(window, recvBase, p.rtp.seqNum) ==> p.rtp.seqNum < CACHE_SIZE)
      modifies packetCache, cached
      ensures State(false) == Store(window, old(State(false)), p)
    {
      var s := p.rtp.seqNum;
      if Add32(recvBase, window) > s && recvBase <= s {
        packetCache[s] := p;
        cached[s] := true;
      }
    }

    /** The loop that writes in-order packets to the file. */
    method DrainCache()
      requires Valid() && Drain(State(false)).base < CACHE_SIZE
      modifies this
      ensures window == old(window)
      ensures State(false) == Drain(old(State(false)))
    {
      hide Content;
      DrainGrows(State(false));
      while cached[recvBase]
        invariant recvBase < CACHE_SIZE && window == old(window)
        invariant Drain(State(false)) == Drain(old(State(false)))
        decreases CACHE_SIZE - recvBase
      {
        ghost var before := State(false);
        output := output + Content(packetCache[recvBase]);
        recvBase := recvBase + 1;
        ghost var written := before.output + Content(before.cache[before.base]);
        assert State(false) == before.(base := before.base + 1, output := written);
        DrainGrows(State(false));
      }
    }

    /** What either loop does with one received packet. */
    method HandlePacket(mode: Mode, p: Packet) returns (replies: seq<Datagram>, done: bool)
      requires Valid() && InBounds(window, State(false), p)
      modifies this, packetCache, cached
      ensures window == old(window)
      ensures State(done) == Handle(window, old(State(false)), p)
      ensures replies == Replies(mode, window, old(State(false)), p)
    {
      hide AckMessage, PacketIntact, Store, Drain;
      replies, done := [], false;
      if p.rtp.typ == DATA {
        if PacketIntact(p) {
          StorePacket(p);
          if mode == Opt {
            replies := [AckMessage(p.rtp.seqNum)];
          }
        }
      } else if p.rtp.typ == END && p.rtp.seqNum <= recvBase {
        if PacketIntact(p) {
          replies, done := [AckMessage(recvBase)], true;
          return;
        }
      }
      DrainCache();
      if mode == Basic {
        replies := [AckMessage(recvBase)];
      }
    }

    /** recvMessage and recvMessageOpt: -1 unless an END was accepted, else the file's size. */
    method RecvMessage(mode: Mode, ds: seq<Datagram>) returns (replies: seq<Datagram>, result: int)
      requires Valid() && forall d :: d in ds ==> |d| <= PACKET_SIZE
      requires RunInBounds(mode, window, Initial().(base := recvBase), ds)
      modifies this, packetCache, cached
      ensures window == old(window)
      ensures (State(result >= 0), replies) == Run(mode, window, Initial().(base := old(recvBase)), ds)
      ensures result == if result >= 0 then |output| else -1
    {
      hide Handle, Replies, InBounds, RunInBounds, ReadPacket;
      ghost var start := Initial().(base := recvBase);
      forall i | 0 <= i < CACHE_SIZE {
        packetCache[i] := EMPTY_PACKET;
      }
      forall i | 0 <= i < CACHE_SIZE {
        cached[i] := false;
      }
      output, replies := [], [];
      assert packetCache[..] == start.cache && cached[..] == start.cached;
      var done, i := false, 0;
      while i < |ds| && !done
        invariant i <= |ds| && window == old(window)
        invariant (State(done), replies) == Run(mode, window, start, ds[..i])
      {
        assert ds[..i + 1][..i] == ds[..i];
        if ds[i] != [] {
          ArrivalInBounds(mode, window, start, ds, i);
          var out;
          out, done := HandlePacket(mode, ReadPacket(ds[i]));
          replies := replies + out;
        }
        i := i + 1;
      }
      NothingAfterEnd(mode, window, start, ds, i);
      assert ds[..|ds|] == ds;
      result := if done then |output| else -1;
    }
  }

  lemma ArrivalInBounds(mode: Mode, window: nat, r: State, ds: seq<Datagram>, i: nat)
    requires Sized(r) && (forall d :: d in ds ==> |d| <= PACKET_SIZE) && RunInBounds(mode, window, r, ds)
    requires i < |ds| && !Run(mode, window, r, ds[..i]).0.done && ds[i] != []
    ensures InBounds(window, Run(mode, window, r, ds[..i]).0, ReadPacket(ds[i]))
  {
    hide Run, InBounds, ReadPacket;
  }

  /** Datagrams after the loop has ended change nothing. */
  lemma {:induction false} NothingAfterEnd(mode: Mode, window: nat, r: State, ds: seq<Datagram>, i: nat)
    requires Sized(r) && (forall d :: d in ds ==> |d| <= PACKET_SIZE)
    requires i <= |ds| && (i < |ds| ==> Run(mode, window, r, ds[..i]).0.done)
    ensures Run(mode, window, r, ds) == Run(mode, window, r, ds[..i])
  {
    hide Handle, Replies, ReadPacket;
    if i == |ds| {
      assert ds[..i] == ds;
    } else {
      var n := |ds| - 1;
      assert ds[..n][..i] == ds[..i];
      NothingAfterEnd(mode, window, r, ds[..n], i);
    }
  }
}
