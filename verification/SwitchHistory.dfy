/** The switch table and the returned ports, in terms of the frames received so far. */
module SwitchHistory {
  import opened SwitchTable
  import Switch
  import opened Sets

  /** The table after the frames `h`, starting from an empty one. */
  function After(capacity: nat, h: seq<Frame>): Table {
    if h == [] then map[] else Next(capacity, After(capacity, h[..|h| - 1]), h[|h| - 1])
  }

  /** The latest data frame from an address, and how many control frames came after it. */
  datatype Sighting = Never | Seen(port: int, ages: nat)

  function Latest(h: seq<Frame>, m: Mac): Sighting {
    if h == [] then Never
    else
      var f, before := h[|h| - 1], Latest(h[..|h| - 1], m);
      if f.inPort != 1 && f.etherType == 0 && f.src == m then Seen(f.inPort, 0)
      else if f.inPort == 1 && f.etherType == 1 && before.Seen? then before.(ages := before.ages + 1)
      else before
  }

  /** An address was seen less than ten control frames ago. */
  predicate Fresh(s: Sighting) {
    s.Seen? && s.ages < 10
  }

  function Sources(h: seq<Frame>): set<Mac> {
    set i | 0 <= i < |h| && h[i].inPort != 1 && h[i].etherType == 0 :: h[i].src
  }

  predicate FromPorts(h: seq<Frame>) {
    forall i :: 0 <= i < |h| ==> h[i].inPort >= 1
  }

  /** Whatever the capacity, a row that exists holds the port of the latest data frame from its
      address, and as many lives as control frames are still needed to remove it. */
  lemma {:induction false} RowsAreLatest(capacity: nat, h: seq<Frame>, m: Mac)
    requires m in After(capacity, h)
    ensures Fresh(Latest(h, m))
    ensures After(capacity, h)[m] == Row(Latest(h, m).port, 10 - Latest(h, m).ages)
  {
    var init, f := h[..|h| - 1], h[|h| - 1];
    if m in After(capacity, init) {
      RowsAreLatest(capacity, init, m);
    }
  }

  lemma SourcesGrow(h: seq<Frame>)
    requires h != []
    ensures var f := h[|h| - 1];
      Sources(h) == Sources(h[..|h| - 1]) + if Learns(f) then {f.src} else {}
  {
    var init, f := h[..|h| - 1], h[|h| - 1];
    assert forall i :: 0 <= i < |init| ==> init[i] == h[i];
    assert Sources(init) <= Sources(h);
    if Learns(f) {
      assert f.src in Sources(h);
    }
  }

  /** The sources that a table without limits would hold after `h`. */
  function FreshSources(h: seq<Frame>): set<Mac> {
    set m | m in Sources(h) && Fresh(Latest(h, m))
  }

  /** At no time were more addresses fresh than there are slots. */
  ghost predicate HasRoom(capacity: nat, h: seq<Frame>) {
    forall k :: 0 <= k <= |h| ==> |FreshSources(h[..k])| <= capacity
  }

  /** The learning of `f` finds a row to refresh or a free slot. */
  predicate HasSlot(capacity: nat, t: Table, f: Frame) {
    f.inPort != 1 && f.etherType == 0 ==> f.src in t || |t| < capacity
  }

  ghost predicate AlwaysHasSlot(capacity: nat, h: seq<Frame>) {
    forall k :: 0 <= k < |h| ==> HasSlot(capacity, After(capacity, h[..k]), h[k])
  }

  ghost predicate Agrees(capacity: nat, h: seq<Frame>) {
    forall m :: m in After(capacity, h) <==> Fresh(Latest(h, m))
  }

  ghost predicate AlwaysAgrees(capacity: nat, h: seq<Frame>) {
    forall k :: 0 <= k <= |h| ==> Agrees(capacity, h[..k])
  }

  lemma {:induction false} SeenIsSource(h: seq<Frame>, m: Mac)
    requires Latest(h, m).Seen?
    ensures m in Sources(h)
  {
    hide Fresh;
    SourcesGrow(h);
    if !(Learns(h[|h| - 1]) && h[|h| - 1].src == m) {
      SeenIsSource(h[..|h| - 1], m);
    }
  }

  lemma IsFreshSource(h: seq<Frame>, m: Mac)
    ensures m in FreshSources(h) <==> Fresh(Latest(h, m))
  {
    hide Latest, Sources;
    if Fresh(Latest(h, m)) {
      SeenIsSource(h, m);
    }
  }

  lemma AgreesIsFresh(capacity: nat, h: seq<Frame>)
    ensures Agrees(capacity, h) <==> After(capacity, h).Keys == FreshSources(h)
  {
    hide FreshSources, Fresh, Latest, After;
    forall m: Mac
      ensures m in FreshSources(h) <==> Fresh(Latest(h, m))
    {
      IsFreshSource(h, m);
    }
    if Agrees(capacity, h) {
      assert After(capacity, h).Keys == FreshSources(h);
    }
  }

  lemma {:induction false} NeverOverfull(capacity: nat, h: seq<Frame>)
    ensures |After(capacity, h)| <= capacity
  {
    if h != [] {
      var init, f := h[..|h| - 1], h[|h| - 1];
      NeverOverfull(capacity, init);
      AgeShrinks(After(capacity, init));
    }
  }

  lemma AgeShrinks(t: Table)
    ensures |Age(t)| <= |t|
  {
    SubsetSize(Age(t).Keys, t.Keys);
    assert |Age(t)| == |Age(t).Keys| && |t| == |t.Keys|;
  }

  lemma AgreesWithSlot(capacity: nat, h: seq<Frame>, f: Frame)
    requires Agrees(capacity, h) && HasSlot(capacity, After(capacity, h), f)
    ensures Agrees(capacity, h + [f])
  {
    var all := h + [f];
    assert all[..|h|] == h;
    forall m: Mac
      ensures m in After(capacity, all) <==> Fresh(Latest(all, m))
    {
      if m in After(capacity, h) {
        RowsAreLatest(capacity, h, m);
      }
    }
  }

  /** When the table is full a new address is not learned, although it has just been seen. */
  lemma FullTableMisses(capacity: nat, h: seq<Frame>, f: Frame)
    requires !HasSlot(capacity, After(capacity, h), f)
    ensures After(capacity, h + [f]) == After(capacity, h) && !Agrees(capacity, h + [f])
    ensures Fresh(Latest(h + [f], f.src)) && f.src !in After(capacity, h + [f])
  {
    assert (h + [f])[..|h|] == h;
  }

  lemma FreshStays(h: seq<Frame>, f: Frame)
    requires Learns(f)
    ensures FreshSources(h) + {f.src} <= FreshSources(h + [f])
  {
    var all := h + [f];
    assert all[..|h|] == h;
    SourcesGrow(all);
    forall m | m in FreshSources(h) + {f.src}
      ensures m in FreshSources(all)
    {
    }
  }

  /** After a table that agrees with the history, learning finds a slot exactly when there is one
      for each fresh address. */
  lemma SlotIsRoom(capacity: nat, h: seq<Frame>, f: Frame)
    requires Agrees(capacity, h)
    ensures HasSlot(capacity, After(capacity, h), f) <==> |FreshSources(h + [f])| <= capacity
  {
    hide After, Agrees, FreshSources, Learns;
    var t := After(capacity, h);
    AgreesIsFresh(capacity, h);
    assert |t| == |t.Keys|;
    if HasSlot(capacity, t, f) {
      AgreesWithSlot(capacity, h, f);
      AgreesIsFresh(capacity, h + [f]);
      NeverOverfull(capacity, h + [f]);
      assert |After(capacity, h + [f])| == |After(capacity, h + [f]).Keys|;
    } else {
      FreshStays(h, f);
      assert |t.Keys + {f.src}| == |t.Keys| + 1;
      SubsetSize(t.Keys + {f.src}, FreshSources(h + [f]));
    }
  }

  lemma PrefixOf(h: seq<Frame>, f: Frame, k: nat)
    requires k <= |h|
    ensures (h + [f])[..k] == h[..k] && h[..|h|] == h && (h + [f])[..|h| + 1] == h + [f]
  {
  }

  lemma RoomSoFar(capacity: nat, h: seq<Frame>, f: Frame)
    ensures HasRoom(capacity, h + [f]) <==> HasRoom(capacity, h) && |FreshSources(h + [f])| <= capacity
  {
    hide FreshSources;
    forall k | 0 <= k <= |h|
      ensures (h + [f])[..k] == h[..k]
    {
      PrefixOf(h, f, k);
    }
    PrefixOf(h, f, |h|);
    assert FreshSources((h + [f])[..|h| + 1]) == FreshSources(h + [f]);
    assert forall k :: 0 <= k <= |h| ==> FreshSources((h + [f])[..k]) == FreshSources(h[..k]);
  }

  lemma AgreedSoFar(capacity: nat, h: seq<Frame>, f: Frame)
    ensures AlwaysAgrees(capacity, h + [f]) <==> AlwaysAgrees(capacity, h) && Agrees(capacity, h + [f])
  {
    hide Agrees;
    forall k | 0 <= k <= |h|
      ensures (h + [f])[..k] == h[..k]
    {
      PrefixOf(h, f, k);
    }
    PrefixOf(h, f, |h|);
    assert Agrees(capacity, (h + [f])[..|h| + 1]) == Agrees(capacity, h + [f]);
    assert forall k :: 0 <= k <= |h| ==> Agrees(capacity, (h + [f])[..k]) == Agrees(capacity, h[..k]);
  }

  lemma SlotsSoFar(capacity: nat, h: seq<Frame>, f: Frame)
    ensures AlwaysHasSlot(capacity, h + [f]) <==> AlwaysHasSlot(capacity, h) && HasSlot(capacity, After(capacity, h), f)
  {
    hide HasSlot, After;
    forall k | 0 <= k <= |h|
      ensures (h + [f])[..k] == h[..k]
    {
      PrefixOf(h, f, k);
    }
    PrefixOf(h, f, |h|);
    assert (h + [f])[|h|] == f;
  }

  /** The table agrees with the history throughout if and only if every address that is learned finds
      a slot, and that is so if and only if there were never more fresh addresses than slots: however
      many addresses pass through, a slot freed by ageing can be used again. */
  lemma {:induction false} AgreesExactlyWithRoom(capacity: nat, h: seq<Frame>)
    ensures AlwaysAgrees(capacity, h) <==> HasRoom(capacity, h)
    ensures AlwaysAgrees(capacity, h) <==> AlwaysHasSlot(capacity, h)
  {
    hide HasSlot, AlwaysAgrees, AlwaysHasSlot, HasRoom, FreshSources, After, Agrees, Sources;
    if h == [] {
      EmptyHistory(capacity);
    } else {
      var init, f := h[..|h| - 1], h[|h| - 1];
      assert h == init + [f];
      AgreesExactlyWithRoom(capacity, init);
      RoomSoFar(capacity, init, f);
      AgreedSoFar(capacity, init, f);
      SlotsSoFar(capacity, init, f);
      if AlwaysAgrees(capacity, init) {
        AgreesNow(capacity, init);
        SlotIsRoom(capacity, init, f);
        if HasSlot(capacity, After(capacity, init), f) {
          AgreesWithSlot(capacity, init, f);
        } else {
          FullTableMisses(capacity, init, f);
        }
      }
    }
  }

  lemma AgreesNow(capacity: nat, h: seq<Frame>)
    requires AlwaysAgrees(capacity, h)
    ensures Agrees(capacity, h)
  {
    hide Agrees;
    assert h[..|h|] == h;
  }

  lemma EmptyHistory(capacity: nat)
    ensures AlwaysAgrees(capacity, []) && HasRoom(capacity, []) && AlwaysHasSlot(capacity, [])
  {
    assert FreshSources([]) == {};
  }

  /** Whenever every learned address has found a slot, every fresh address has a row. */
  lemma FreshHasRow(capacity: nat, h: seq<Frame>, m: Mac)
    requires HasRoom(capacity, h) && Fresh(Latest(h, m))
    ensures m in After(capacity, h)
  {
    hide HasRoom, AlwaysAgrees, After, Fresh, Latest;
    AgreesExactlyWithRoom(capacity, h);
    AgreesNow(capacity, h);
  }

  /** The port a switch without limits would return for a frame after `h`, by the history alone. */
  function ExpectedOut(h: seq<Frame>, f: Frame): int {
    if f.inPort == 1 || f.etherType != 0 then -1
    else
      var s := Latest(h + [f], f.dst);
      if s.Never? || s.ages >= 10 then 0 else if s.port == f.inPort then -1 else s.port
  }

  lemma AfterNext(capacity: nat, h: seq<Frame>, f: Frame)
    ensures After(capacity, h + [f]) == Next(capacity, After(capacity, h), f)
  {
    hide Next;
    assert (h + [f])[..|h|] == h;
  }

  /** While there was room, the returned port depends only on the latest data frame from the
      destination, this frame included; a table that has been full can only cause more flooding. */
  lemma OutIsExpected(capacity: nat, h: seq<Frame>, f: Frame)
    requires FromPorts(h + [f])
    ensures HasRoom(capacity, h + [f]) ==> Out(capacity, After(capacity, h), f) == ExpectedOut(h, f)
    ensures var out := Out(capacity, After(capacity, h), f); out == ExpectedOut(h, f) || out == 0
  {
    var all := h + [f];
    hide HasRoom, AlwaysAgrees, AlwaysHasSlot, Next, Latest, After, Sources;
    AfterNext(capacity, h, f);
    AgreesExactlyWithRoom(capacity, all);
    if HasRoom(capacity, all) {
      AgreesNow(capacity, all);
    }
    if f.dst in After(capacity, all) {
      RowsAreLatest(capacity, all, f.dst);
      LatestFromPort(all, f.dst);
    }
  }

  lemma {:induction false} LatestFromPort(h: seq<Frame>, m: Mac)
    requires FromPorts(h) && Latest(h, m).Seen?
    ensures Latest(h, m).port > CONTROLLER_PORT
  {
    var init := h[..|h| - 1];
    if Latest(init, m).Seen? {
      LatestFromPort(init, m);
    }
  }

  /** `out` is what the history tells for the frame at `i`, as long as there was room; it can otherwise
      be 0 instead, and is -1 for a frame of the wrong type for its port and for control frames. */
  ghost predicate Right(capacity: nat, h: seq<Frame>, i: nat, out: int)
    requires i < |h|
  {
    && (HasRoom(capacity, h[..i + 1]) ==> out == ExpectedOut(h[..i], h[i]))
    && (out == ExpectedOut(h[..i], h[i]) || out == 0)
    && (h[i].inPort == 1 || h[i].etherType != 0 ==> out == -1)
  }

  lemma OutIsRight(capacity: nat, h: seq<Frame>, i: nat)
    requires i < |h| && FromPorts(h)
    ensures Right(capacity, h, i, Out(capacity, After(capacity, h[..i]), h[i]))
  {
    hide Out, After, HasRoom;
    assert h[..i] + [h[i]] == h[..i + 1];
    OutIsExpected(capacity, h[..i], h[i]);
    RefusedOut(capacity, After(capacity, h[..i]), h[i]);
  }

  lemma RefusedOut(capacity: nat, t: Table, f: Frame)
    ensures f.inPort == 1 || f.etherType != 0 ==> Out(capacity, t, f) == -1
  {
  }

  /** A switch fed any frames: its table is the one after the history, and as long as at most
      PortNum + 1000 addresses were fresh at a time, every returned port is the one the history tells. */
  method RunSwitch(numPorts: nat, h: seq<Frame>) returns (s: Switch.MySwitch, outs: seq<int>)
    requires FromPorts(h)
    ensures s.Valid() && s.View() == After(numPorts + 1000, h)
    ensures |outs| == |h| && forall i :: 0 <= i < |h| ==> Right(numPorts + 1000, h, i, outs[i])
  {
    hide Out, Next, Right, Sources, Fresh, Learns, Ages;
    ghost var capacity := numPorts + 1000;
    s := new Switch.MySwitch.InitSwitch(numPorts);
    outs := [];
    for n := 0 to |h|
      invariant s.Valid() && s.portNum == numPorts && fresh(s) && fresh(s.switchTable)
      invariant s.View() == After(capacity, h[..n]) && |outs| == n
      invariant forall i :: 0 <= i < n ==> Right(capacity, h, i, outs[i])
    {
      assert h[..n + 1][..n] == h[..n];
      OutIsRight(capacity, h, n);
      var out := s.ProcessFrame(h[n]);
      outs := outs + [out];
    }
    assert h[..|h|] == h;
  }

  // ----- the latest sighting, by its place in the history -----

  /** The frame at `i` is the last data frame from `m`. */
  predicate LastFrom(h: seq<Frame>, m: Mac, i: int) {
    && 0 <= i < |h| && h[i].inPort != 1 && h[i].etherType == 0 && h[i].src == m
    && forall j :: i < j < |h| ==> h[j].inPort == 1 || h[j].etherType != 0 || h[j].src != m
  }

  /** The control frames of `h` from position `from` on. */
  function Ageings(h: seq<Frame>, from: nat): nat {
    if |h| <= from then 0
    else Ageings(h[..|h| - 1], from) + if h[|h| - 1].inPort == 1 && h[|h| - 1].etherType == 1 then 1 else 0
  }

  lemma {:induction false} LatestIsLast(h: seq<Frame>, m: Mac, i: nat)
    requires LastFrom(h, m, i)
    ensures Latest(h, m) == Seen(h[i].inPort, Ageings(h, i + 1))
  {
    var n := |h| - 1;
    if i < n {
      assert LastFrom(h[..n], m, i);
      LatestIsLast(h[..n], m, i);
    }
  }

  lemma {:induction false} NeverMeansNone(h: seq<Frame>, m: Mac)
    ensures Latest(h, m).Never?
       <==> forall i :: 0 <= i < |h| ==> h[i].inPort == 1 || h[i].etherType != 0 || h[i].src != m
  {
    if h != [] {
      var n := |h| - 1;
      NeverMeansNone(h[..n], m);
      assert forall i :: 0 <= i < n ==> h[..n][i] == h[i];
    }
  }

  /** An address has a row until the tenth control frame after its last data frame, if there has
      always been a slot, and never has one longer; the row holds that frame's port. */
  lemma TenAgeings(capacity: nat, h: seq<Frame>, m: Mac, i: nat)
    requires LastFrom(h, m, i)
    ensures Ageings(h, i + 1) >= 10 ==> m !in After(capacity, h)
    ensures Ageings(h, i + 1) < 10 && HasRoom(capacity, h) ==> m in After(capacity, h)
    ensures m in After(capacity, h) ==> After(capacity, h)[m] == Row(h[i].inPort, 10 - Ageings(h, i + 1))
  {
    hide LastFrom, HasRoom, After, Ageings, Latest;
    LatestIsLast(h, m, i);
    if m in After(capacity, h) {
      RowsAreLatest(capacity, h, m);
    } else if HasRoom(capacity, h) && Ageings(h, i + 1) < 10 {
      FreshHasRow(capacity, h, m);
    }
  }

  lemma NoFrameNoRow(capacity: nat, h: seq<Frame>, m: Mac)
    requires forall i :: 0 <= i < |h| ==> h[i].inPort == 1 || h[i].etherType != 0 || h[i].src != m
    ensures m !in After(capacity, h)
  {
    hide After, Latest;
    NeverMeansNone(h, m);
    if m in After(capacity, h) {
      RowsAreLatest(capacity, h, m);
    }
  }

  // ----- too many addresses -----

  function DataFrom(m: Mac): Frame {
    Frame(2, DATA_TYPE, m, m)
  }

  /** Data frames from `k` different addresses of `macs` fill `k` slots. */
  lemma {:induction false} FillsSlots(capacity: nat, macs: set<Mac>, k: nat) returns (h: seq<Frame>)
    requires k <= capacity && k <= |macs|
    ensures Sources(h) <= macs && After(capacity, h).Keys == Sources(h) && |After(capacity, h)| == k
    decreases k
  {
    if k == 0 {
      h := [];
      assert Sources(h) == {};
    } else {
      var init := FillsSlots(capacity, macs, k - 1);
      var t := After(capacity, init);
      var m := Another(macs, t.Keys);
      var f := DataFrom(m);
      h := init + [f];
      assert h[..|h| - 1] == init;
      SourcesGrow(h);
      assert After(capacity, h).Keys == t.Keys + {m};
      assert |t.Keys + {m}| == |t.Keys| + 1;
    }
  }

  lemma Another<T>(a: set<T>, b: set<T>) returns (x: T)
    requires b <= a && |b| < |a|
    ensures x in a && x !in b
  {
    if a <= b {
      SubsetSize(a, b);
    }
    x :| x in a && x !in b;
  }

  ghost predicate AgreesFrom(capacity: nat, macs: set<Mac>) {
    forall h: seq<Frame> :: Sources(h) <= macs ==> Agrees(capacity, h)
  }

  lemma RoomForSources(capacity: nat, h: seq<Frame>)
    requires |Sources(h)| <= capacity
    ensures HasRoom(capacity, h)
  {
    hide Latest, Fresh;
    forall k | 0 <= k <= |h|
      ensures |FreshSources(h[..k])| <= capacity
    {
      assert forall i :: 0 <= i < k ==> h[..k][i] == h[i];
      SubsetSize(FreshSources(h[..k]), Sources(h));
    }
  }

  /** The table is right after every sequence of frames from these addresses exactly when there is
      a slot for each of them. */
  lemma CapacityIsEnough(capacity: nat, macs: set<Mac>)
    ensures AgreesFrom(capacity, macs) <==> |macs| <= capacity
  {
    hide Agrees, HasRoom, AlwaysAgrees, AlwaysHasSlot, HasSlot, After;
    if |macs| <= capacity {
      forall h: seq<Frame> | Sources(h) <= macs
        ensures Agrees(capacity, h)
      {
        SubsetSize(Sources(h), macs);
        RoomForSources(capacity, h);
        AgreesExactlyWithRoom(capacity, h);
        AgreesNow(capacity, h);
      }
    } else {
      var h, f := Overflow(capacity, macs);
      FullTableMisses(capacity, h, f);
    }
  }

  /** More addresses than slots: a sequence of frames the last of which finds no slot. */
  lemma Overflow(capacity: nat, macs: set<Mac>) returns (h: seq<Frame>, f: Frame)
    requires capacity < |macs|
    ensures Sources(h + [f]) <= macs && !HasSlot(capacity, After(capacity, h), f)
  {
    hide After;
    h := FillsSlots(capacity, macs, capacity);
    assert |After(capacity, h)| == |After(capacity, h).Keys|;
    var m := Another(macs, After(capacity, h).Keys);
    f := DataFrom(m);
    assert (h + [f])[..|h + [f]| - 1] == h;
    SourcesGrow(h + [f]);
  }
}
