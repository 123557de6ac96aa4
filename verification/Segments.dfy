/** How the sender cuts a file into the payloads of its DATA packets. */
module Segments {
  import opened Words
  import opened Rtp

  /** file_statics: the number of segments, the last of which may be empty. */
  function Count(file: seq<bv8>): nat {
    |file| / PAYLOAD_SIZE + 1
  }

  /** fseek to s * 1461 (a 32-bit product), then fread of up to 1461 bytes. */
  function Read(file: seq<bv8>, s: nat): (data: seq<bv8>)
    ensures |data| <= PAYLOAD_SIZE
  {
    var offset := Mul32(s, PAYLOAD_SIZE);
    if offset >= |file| then [] else file[offset..Min(offset + PAYLOAD_SIZE, |file|)]
  }

  /** Segments 0 to k - 1, one after the other. */
  function Joined(file: seq<bv8>, k: nat): seq<bv8> {
    if k == 0 then [] else Joined(file, k - 1) + Read(file, k - 1)
  }

  /** Segment `s` is the 1461 bytes from 1461 * s on, a 32-bit product, or what the file has of them;
      there is one segment more than the file has full ones. */
  lemma SegmentBytes(file: seq<bv8>, s: nat)
    ensures Count(file) == |file| / 1461 + 1
    ensures var from := 1461 * s % 0x1_0000_0000;
      Read(file, s) == if from > |file| then [] else file[from..Min(from + 1461, |file|)]
    ensures 1461 * s < 0x1_0000_0000 && 1461 * s <= |file| ==>
      Read(file, s) == file[1461 * s..Min(1461 * (s + 1), |file|)]
  {
    hide Mul32;
    OffsetIs(s);
  }

  lemma OffsetIs(s: nat)
    ensures Mul32(s, PAYLOAD_SIZE) == 1461 * s % 0x1_0000_0000
  {
    assert s * PAYLOAD_SIZE == 1461 * s;
  }

  /** Reading at `from` continues what was read before it. */
  lemma ReadContinues(file: seq<bv8>, s: nat, from: nat)
    requires from == s * PAYLOAD_SIZE < U32
    ensures file[..Min(from, |file|)] + Read(file, s) == file[..Min(from + PAYLOAD_SIZE, |file|)]
  {
    hide Mul32;
    assert Mul32(s, PAYLOAD_SIZE) == from;
    if from < |file| {
      var to := Min(from + PAYLOAD_SIZE, |file|);
      assert file[..from] + file[from..to] == file[..to];
    }
  }

  lemma {:induction false} JoinedIsPrefix(file: seq<bv8>, k: nat)
    requires k * PAYLOAD_SIZE < U32
    ensures Joined(file, k) == file[..Min(k * 1461, |file|)]
  {
    hide Read, Min;
    if k == 0 {
      NoBytes(file);
    } else {
      JoinedIsPrefix(file, k - 1);
      ReadContinues(file, k - 1, (k - 1) * PAYLOAD_SIZE);
    }
  }

  lemma NoBytes(file: seq<bv8>)
    ensures file[..Min(0 * PAYLOAD_SIZE, |file|)] == []
  {
  }

  /** Segments at or past the count are empty, so the whole file is any `k >= Count` segments. */
  lemma JoinedIsFile(file: seq<bv8>, k: nat)
    requires Count(file) <= k && k * PAYLOAD_SIZE < U32
    ensures Joined(file, k) == file
  {
    JoinedIsPrefix(file, k);
    assert k * PAYLOAD_SIZE > |file|;
  }

  /** Every segment but the last is full; the last is shorter; what follows is empty. */
  lemma SegmentLengths(file: seq<bv8>, s: nat)
    requires s * PAYLOAD_SIZE < U32
    ensures s + 1 < Count(file) ==> |Read(file, s)| == 1461
    ensures s + 1 == Count(file) ==> |Read(file, s)| == |file| % 1461
    ensures s >= Count(file) ==> Read(file, s) == []
  {
    assert Mul32(s, PAYLOAD_SIZE) == s * PAYLOAD_SIZE;
  }

  /** Cutting a file into its segments and joining them gives the file back. */
  lemma RoundTrip(file: seq<bv8>)
    requires Count(file) * PAYLOAD_SIZE < U32
    ensures Joined(file, Count(file)) == file
    ensures forall s :: 0 <= s < Count(file) - 1 ==> |Read(file, s)| == 1461
    ensures |Read(file, Count(file) - 1)| < 1461
  {
    JoinedIsFile(file, Count(file));
    SegmentLengths(file, Count(file) - 1);
    forall s | 0 <= s < Count(file) - 1
      ensures |Read(file, s)| == PAYLOAD_SIZE
    {
      SegmentLengths(file, s);
    }
  }
}
