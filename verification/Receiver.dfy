/** The receiving side: what one received datagram makes recvMessage and recvMessageOpt do. */
module Receiver {
  import opened Words
  import opened Rtp

  const CACHE_SIZE: nat := 80000

  /** recv_base, packet_cache[], cached[], the bytes written, and whether the loop has ended. */
  datatype State = State(base: nat, cache: seq<Packet>, cached: seq<bool>, output: seq<bv8>, done: bool)

  const EMPTY_PACKET: Packet := Packet(Header(0, 0, 0, 0), Zeros(PAYLOAD_SIZE))

  function Initial(): State {
    State(0, seq(CACHE_SIZE, _ => EMPTY_PACKET), seq(CACHE_SIZE, _ => false), [], false)
  }

  predicate Sized(r: State) {
    |r.cache| == |r.cached| == CACHE_SIZE
  }

  function AckMessage(n: nat): Datagram {
    HeaderBytes(MakeHeader(ACK, 0, n))
  }

  predicate InWindow(window: nat, base: nat, s: nat) {
    Add32(base, window) > s && base <= s
  }

  /** Caches an intact DATA packet of the window; past the array it is out of bounds in the program. */
  function Store(window: nat, r: State, p: Packet): (r': State)
    requires Sized(r)
    ensures Sized(r')
  {
    var s := p.rtp.seqNum;
    if InWindow(window, r.base, s) && s < CACHE_SIZE then
      r.(cache := r.cache[s := p], cached := r.cached[s := true])
    else
      r
  }

  /** Writes the cached packets from recv_base on, up to the first gap. */
  function Drain(r: State): (r': State)
    requires Sized(r)
    ensures Sized(r')
    decreases CACHE_SIZE - r.base
  {
    if r.base < CACHE_SIZE && r.cached[r.base] then
      Drain(r.(base := r.base + 1, output := r.output + Content(r.cache[r.base])))
    else
      r
  }

  /** What the cached packets `lo` to `hi - 1` carry, in order. */
  function Contents(cache: seq<Packet>, lo: nat, hi: nat): seq<bv8>
    requires hi <= |cache|
    decreases hi
  {
    if hi <= lo then [] else Contents(cache, lo, hi - 1) + Content(cache[hi - 1])
  }

  lemma {:induction false} ContentsFirst(cache: seq<Packet>, lo: nat, hi: nat)
    requires lo < hi <= |cache|
    ensures Contents(cache, lo, hi) == Content(cache[lo]) + Contents(cache, lo + 1, hi)
    decreases hi
  {
    hide Content;
    if lo + 1 < hi {
      ContentsFirst(cache, lo, hi - 1);
    }
  }

  /** Draining moves recv_base to the first gap, writes exactly what lies before it, and leaves the
      cache alone; so a cumulative ACK carries the least number not yet received. */
  lemma {:induction false} DrainToFirstGap(r: State)
    requires Sized(r) && r.base <= CACHE_SIZE
    ensures var r' := Drain(r);
      && r.base <= r'.base <= CACHE_SIZE && (r'.base < CACHE_SIZE ==> !r.cached[r'.base])
      && (forall q :: r.base <= q < r'.base ==> r.cached[q])
      && r'.output == r.output + Contents(r.cache, r.base, r'.base)
      && r' == r.(base := r'.base, output := r'.output)
    decreases CACHE_SIZE - r.base
  {
    hide Content;
    if r.base < CACHE_SIZE && r.cached[r.base] {
      DrainToFirstGap(r.(base := r.base + 1, output := r.output + Content(r.cache[r.base])));
      ContentsFirst(r.cache, r.base, Drain(r).base);
    } else {
      assert Contents(r.cache, r.base, r.base) == [];
    }
  }

  lemma {:induction false} DrainGrows(r: State)
    requires Sized(r)
    ensures var r' := Drain(r); r.base <= r'.base && r.output <= r'.output && r'.done == r.done
    decreases CACHE_SIZE - r.base
  {
    hide Content;
    if r.base < CACHE_SIZE && r.cached[r.base] {
      DrainGrows(r.(base := r.base + 1, output := r.output + Content(r.cache[r.base])));
    }
  }

  /** An END packet the loop stops at. */
  predicate Closes(r: State, p: Packet) {
    p.rtp.typ == END && p.rtp.seqNum <= r.base && PacketIntact(p)
  }

  predicate IntactData(p: Packet) {
    p.rtp.typ == DATA && PacketIntact(p)
  }

  /** The state after one datagram. */
  function Handle(window: nat, r: State, p: Packet): (r': State)
    requires Sized(r)
    ensures Sized(r')
  {
    if Closes(r, p) then r.(done := true)
    else Drain(if IntactData(p) then Store(window, r, p) else r)
  }

  /** The ACKs sent for it: cumulative after every datagram, or selective for intact data. */
  function Replies(mode: Mode, window: nat, r: State, p: Packet): seq<Datagram>
    requires Sized(r)
  {
    if Closes(r, p) then [AckMessage(r.base)]
    else match mode
      case Basic => [AckMessage(Handle(window, r, p).base)]
      case Opt => if IntactData(p) then [AckMessage(p.rtp.seqNum)] else []
  }

  /** Only an intact segment inside the window can change what is cached, and it changes its own
      slot alone; anything else is dropped. */
  lemma CachedOnlyInWindow(window: nat, r: State, p: Packet, q: nat)
    requires Sized(r) && r.base <= CACHE_SIZE && q < CACHE_SIZE
    ensures var r' := Handle(window, r, p);
      if IntactData(p) && InWindow(window, r.base, p.rtp.seqNum) && q == p.rtp.seqNum
      then r'.cached[q] && r'.cache[q] == p
      else r'.cached[q] == r.cached[q] && r'.cache[q] == r.cache[q]
  {
    hide PacketIntact, Content;
    if !Closes(r, p) {
      DrainToFirstGap(if IntactData(p) then Store(window, r, p) else r);
    }
  }

  /** An intact END numbered at most recv_base stops the loop, and nothing else does; it is answered
      with recv_base. */
  lemma ClosingPacket(mode: Mode, window: nat, r: State, p: Packet)
    requires Sized(r)
    ensures var closes := p.rtp.typ == 1 && p.rtp.seqNum <= r.base && PacketIntact(p);
      && (closes ==> Handle(window, r, p) == r.(done := true))
      && (closes ==> Replies(mode, window, r, p) == [AckMessage(r.base)])
      && (!closes ==> Handle(window, r, p).done == r.done)
  {
    hide PacketIntact, Content, AckMessage;
    if !(p.rtp.typ == 1 && p.rtp.seqNum <= r.base && PacketIntact(p)) {
      DrainGrows(if IntactData(p) then Store(window, r, p) else r);
    }
  }

  /** Any other packet: an intact segment numbered from recv_base to recv_base + window - 1 is cached,
      what is then complete is written, and the answer is the next number expected in Basic, and the
      number of the segment, if intact, in Opt. */
  lemma OtherPacket(mode: Mode, window: nat, r: State, p: Packet)
    requires Sized(r) && r.base <= 80000 && r.base + window < 0x1_0000_0000
    requires !(p.rtp.typ == 1 && p.rtp.seqNum <= r.base && PacketIntact(p))
    ensures var r', s := Handle(window, r, p), p.rtp.seqNum;
      var data := p.rtp.typ == 2 && PacketIntact(p);
      var stores := data && r.base <= s < r.base + window && s < 80000;
      && |r'.cached| == |r'.cache| == 80000
      && r'.cached == (if stores then r.cached[s := true] else r.cached)
      && r'.cache == (if stores then r.cache[s := p] else r.cache)
      && r.base <= r'.base <= 80000 && (r'.base < 80000 ==> !r'.cached[r'.base])
      && (forall q :: r.base <= q < r'.base ==> r'.cached[q])
      && r'.output == r.output + Contents(r'.cache, r.base, r'.base)
      && Replies(mode, window, r, p)
         == (match mode
             case Basic => [AckMessage(r'.base)]
             case Opt => if data then [AckMessage(s)] else [])
  {
    hide PacketIntact, Content, AckMessage, Drain, Contents;
    DrainToFirstGap(if IntactData(p) then Store(window, r, p) else r);
  }

  /** Every memory access for the datagram is in bounds: the checksum and the output stay inside
      the packet, and the two arrays are large enough. */
  predicate InBounds(window: nat, r: State, p: Packet)
    requires Sized(r)
  {
    && p.rtp.length <= PAYLOAD_SIZE
    && (IntactData(p) && InWindow(window, r.base, p.rtp.seqNum) ==> p.rtp.seqNum < CACHE_SIZE)
    && Handle(window, r, p).base < CACHE_SIZE
  }

  /** The whole loop over what each poll of the socket yields (empty for nothing); it stops at
      the first END it accepts. */
  function Run(mode: Mode, window: nat, r: State, ds: seq<Datagram>): (out: (State, seq<Datagram>))
    requires Sized(r) && forall d :: d in ds ==> |d| <= PACKET_SIZE
    ensures Sized(out.0)
  {
    if ds == [] then (r, [])
    else
      var n := |ds| - 1;
      var (s, replies) := Run(mode, window, r, ds[..n]);
      if s.done || ds[n] == [] then (s, replies)
      else
        var p := ReadPacket(ds[n]);
        (Handle(window, s, p), replies + Replies(mode, window, s, p))
  }

  predicate RunInBounds(mode: Mode, window: nat, r: State, ds: seq<Datagram>)
    requires Sized(r) && forall d :: d in ds ==> |d| <= PACKET_SIZE
  {
    forall k :: 0 <= k < |ds| ==>
      var s := Run(mode, window, r, ds[..k]).0;
      !s.done && ds[k] != [] ==> InBounds(window, s, ReadPacket(ds[k]))
  }
}
