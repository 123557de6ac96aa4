/** What the invariant of the switched tree means for frames: at most one visit, exactly one
    delivery, and an end to the forwarding. */
module TreeDelivery {
  import opened SwitchTable
  import opened Trees
  import opened SwitchedTree
  import opened Sets

  function HostMac(n: bv8): Mac { [0xDE, 0xAD, 0xBE, 0xEF, 0, n] }

  /** One switch with three hosts on its ports 2, 3 and 4. */
  function OneSwitch(): Topology {
    Topology(Tree([0, 0, 0, 0]), {1, 2, 3},
             map[1 := HostMac(1), 2 := HostMac(2), 3 := HostMac(3)],
             map[(0, 1) := 2, (0, 2) := 3, (0, 3) := 4, (1, 0) := 2, (2, 0) := 2, (3, 0) := 2],
             1004)
  }

  lemma OneSwitchLinks(v: Node, u: Node)
    ensures OneSwitch().tree.Linked(v, u) <==> (v == 0 && 1 <= u <= 3) || (u == 0 && 1 <= v <= 3)
  {
  }

  lemma OneSwitchPorts(v: Node, u: Node, w: Node)
    requires OneSwitch().tree.Linked(v, u)
    ensures (v, u) in OneSwitch().port && OneSwitch().port[(v, u)] > CONTROLLER_PORT
    ensures OneSwitch().tree.Linked(v, w) && OneSwitch().port[(v, u)] == OneSwitch().port[(v, w)] ==> u == w
  {
    hide HostMac;
    OneSwitchLinks(v, u);
    OneSwitchLinks(v, w);
  }

  lemma OneSwitchHosts(h: Node, k: Node)
    requires h in OneSwitch().hosts && k in OneSwitch().hosts
    ensures OneSwitch().tree.Has(h) && h in OneSwitch().mac && k in OneSwitch().mac
    ensures OneSwitch().mac[h] == OneSwitch().mac[k] ==> h == k
  {
    assert HostMac(1)[5] == 1 && HostMac(2)[5] == 2 && HostMac(3)[5] == 3;
    hide HostMac;
  }

  lemma OneSwitchLeaves(h: Node, u: Node)
    requires h in OneSwitch().hosts && OneSwitch().tree.Linked(h, u)
    ensures u == 0
  {
    hide HostMac;
    OneSwitchLinks(h, u);
  }

  /** The setting is not empty: the assignment's one-switch network is a sound topology. */
  lemma OneSwitchIsSound()
    ensures Sound(OneSwitch())
  {
    var g := OneSwitch();
    assert g.tree.Valid();
    hide OneSwitch;
    forall h | h in g.hosts
      ensures g.tree.Has(h) && h in g.mac
    {
      OneSwitchHosts(h, h);
    }
    forall h, k | h in g.hosts && k in g.hosts
      ensures g.mac[h] == g.mac[k] ==> h == k
    {
      OneSwitchHosts(h, k);
    }
    forall h: Node, u: Node | h in g.hosts && g.tree.Linked(h, u)
      ensures u == 0
    {
      OneSwitchLeaves(h, u);
    }
    forall v: Node, u: Node, w: Node | g.tree.Linked(v, u)
      ensures (v, u) in g.port && g.port[(v, u)] > CONTROLLER_PORT
      ensures g.tree.Linked(v, w) && g.port[(v, u)] == g.port[(v, w)] ==> u == w
    {
      OneSwitchPorts(v, u, w);
    }
  }

  /** In every reachable state a row for a host holds the port of the neighbour on the way to it. */
  lemma EntriesPointHome(g: Topology, run: seq<Step>, v: Node, h: Node)
    requires Sound(g) && Possible(g, Start(g), run) && h in g.hosts && IsSwitch(g, v)
    ensures var net := After(g, Start(g), run);
      v in net.tables && (g.mac[h] in net.tables[v] ==>
        g.tree.Linked(v, g.tree.Toward(v, h)) && net.tables[v][g.mac[h]].port == g.port[(v, g.tree.Toward(v, h))])
  {
    RunKeeps(g, run);
    hide Start, Possible, After, CopiesInv, MessagesInv, IsHostMac;
    var net := After(g, Start(g), run);
    assert v in net.tables && Routes(g, v, net.tables[v]);
  }

  /** Over every run, each frame is put at most once on a link to each node, and never back to its sender. */
  lemma VisitsOnce(g: Topology, run: seq<Step>, c: Copy, k: Copy)
    requires Sound(g) && Possible(g, Start(g), run)
    requires var net := After(g, Start(g), run);
      c in Copies(net) && k in Copies(net) && c.id == k.id && c.at == k.at
    ensures c == k && Copies(After(g, Start(g), run))[c] == 1
    ensures c.id < |After(g, Start(g), run).messages| && c.at != After(g, Start(g), run).messages[c.id].src
  {
    RunKeeps(g, run);
    hide Start, Possible, After, TablesInv, MessagesInv, Copies;
    assert Once(g, After(g, Start(g), run), c) && Once(g, After(g, Start(g), run), k);
  }

  predicate AllHandled(net: Net, id: nat) {
    forall c :: c in net.flying ==> c.id != id
  }

  /** Among the copies processed, exactly one is of frame `id` at node `d`. */
  ghost predicate ReceivedOnce(net: Net, id: nat, d: Node) {
    exists c :: c in net.handled && net.handled[c] == 1 && c.id == id && c.at == d
                && forall k :: k in net.handled && k.id == id && k.at == d ==> k == c
  }

  /** Once no copy of a frame is left in flight, its destination has received it exactly once. */
  lemma DeliveredOnce(g: Topology, run: seq<Step>, id: nat, d: Node)
    requires Sound(g) && Possible(g, Start(g), run)
    requires var net := After(g, Start(g), run);
      id < |net.messages| && Addressed(g, net.messages[id], d) && AllHandled(net, id)
    ensures g.tree.Has(d) && g.tree.Has(After(g, Start(g), run).messages[id].src)
    ensures var net := After(g, Start(g), run);
      CopyTo(g, net, id, d) in net.handled && ReceivedOnce(net, id, d)
  {
    RunKeeps(g, run);
    hide Start, Possible, After, TablesInv;
    var net := After(g, Start(g), run);
    HostsAreNodes(g, net);
    assert Served(g, net, id, d);
    var home := CopyTo(g, net, id, d);
    assert !exists v :: OnItsWay(g, net, id, d, v);
    assert Once(g, net, home);
    forall c | c in net.handled && c.id == id && c.at == d
      ensures c == home
    {
      assert Once(g, net, c);
    }
  }

  /** A switch that has a row for the destination relays along the way to it and nowhere else. */
  lemma KnownDestination(g: Topology, run: seq<Step>, c: Copy, d: Node)
    requires Sound(g) && Possible(g, Start(g), run)
    requires Enabled(g, After(g, Start(g), run), Relay(c))
    requires var net := After(g, Start(g), run);
      c.id < |net.messages| && Addressed(g, net.messages[c.id], d) && c.at in net.tables
      && g.mac[d] in net.tables[c.at]
    ensures var net := After(g, Start(g), run);
      && Relayable(g, net, c) && g.tree.Has(c.at) && g.tree.Has(d) && g.tree.Has(net.messages[c.id].src)
      && Targets(g, c.at, c.from, OutPort(g, net, c))
         == if g.tree.Between(c.at, net.messages[c.id].src, d) then {g.tree.Toward(c.at, d)} else {}
  {
    hide Start, Possible, After;
    RunKeeps(g, run);
    var net := After(g, Start(g), run);
    RelayReady(g, net, c);
    KnownTargets(g, net, c, d);
  }

  lemma KnownTargets(g: Topology, net: Net, c: Copy, d: Node)
    requires Sound(g) && Inv(g, net) && Enabled(g, net, Relay(c)) && Relayable(g, net, c)
    requires Outward(g, net.messages, c) && Addressed(g, net.messages[c.id], d) && g.mac[d] in net.tables[c.at]
    requires g.tree.Has(c.at)
    ensures Targets(g, c.at, c.from, OutPort(g, net, c))
         == if g.tree.Between(c.at, net.messages[c.id].src, d) then {g.tree.Toward(c.at, d)} else {}
  {
    hide Inv, OutPort, Targets;
    g.tree.TowardIsLinked(c.at, d);
    KnownPort(g, net, c, d);
    OneTarget(g, c.at, c.from, g.tree.Toward(c.at, d));
  }

  /** The neighbours behind the port to `w`, or behind no port when that is where the frame came from. */
  lemma OneTarget(g: Topology, v: Node, from: Node, w: Node)
    requires Sound(g) && g.tree.Linked(v, w) && g.tree.Linked(v, from)
    ensures var p := g.port[(v, w)];
      Targets(g, v, from, if p == g.port[(v, from)] then DROP else p) == if w == from then {} else {w}
  {
    var p := g.port[(v, w)];
    var us := Targets(g, v, from, if p == g.port[(v, from)] then DROP else p);
    if w == from {
      assert us == {};
    } else {
      assert us == {w};
    }
  }

  lemma KnownPort(g: Topology, net: Net, c: Copy, d: Node)
    requires Sound(g) && Inv(g, net) && Enabled(g, net, Relay(c)) && Relayable(g, net, c)
    requires Outward(g, net.messages, c) && Addressed(g, net.messages[c.id], d) && g.mac[d] in net.tables[c.at]
    requires g.tree.Has(c.at)
    ensures g.tree.Linked(c.at, g.tree.Toward(c.at, d))
    ensures var p := g.port[(c.at, g.tree.Toward(c.at, d))];
      OutPort(g, net, c) == if p == g.port[(c.at, c.from)] then DROP else p
  {
    LearnKeepsRoutes(g, net, c);
    hide TablesInv, CopiesInv, MessagesInv, Next, IsHostMac;
    KnownRow(g.capacity, net.tables[c.at], FrameOf(g, net, c), g.mac[d]);
    g.tree.TowardIsLinked(c.at, d);
  }

  lemma KnownRow(capacity: nat, t: Table, f: Frame, m: Mac)
    requires Learns(f) && m in t
    ensures m in Next(capacity, t, f)
  {
  }

  // ----- forwarding ends -----

  /** The steps of a run in which a host or a switch processes a copy. */
  function Handlings(run: seq<Step>): nat {
    if run == [] then 0
    else
      var last := run[|run| - 1];
      Handlings(run[..|run| - 1]) + if last.Take? || last.Relay? then 1 else 0
  }

  function Emissions(run: seq<Step>): nat {
    if run == [] then 0
    else Emissions(run[..|run| - 1]) + if run[|run| - 1].Emit? then 1 else 0
  }

  lemma StepCounts(g: Topology, net: Net, step: Step)
    requires Sound(g) && Inv(g, net) && Enabled(g, net, step)
    ensures var net' := Apply(g, net, step);
      && |net'.handled| == |net.handled| + (if step.Take? || step.Relay? then 1 else 0)
      && |net'.messages| == |net.messages| + (if step.Emit? then 1 else 0)
  {
    if step.Relay? {
      RelayReady(g, net, step.c);
    }
  }

  lemma {:induction false} RunCounts(g: Topology, run: seq<Step>)
    requires Sound(g) && Possible(g, Start(g), run)
    ensures |After(g, Start(g), run).handled| == Handlings(run)
    ensures |After(g, Start(g), run).messages| == Emissions(run)
    decreases |run|
  {
    hide Inv, Apply, Enabled, Sound;
    if run != [] {
      var init := run[..|run| - 1];
      RunCounts(g, init);
      RunKeeps(g, init);
      StepCounts(g, After(g, Start(g), init), run[|run| - 1]);
    }
  }

  /** All pairs of a frame number below `m` and a node below `n`. */
  function Grid(m: nat, n: nat): set<(nat, nat)> {
    set i: nat, j: nat | i < m && j < n && InGrid(i, j) :: (i, j)
  }

  predicate InGrid(i: nat, j: nat) { true }

  function Column(i: nat, n: nat): set<(nat, nat)> {
    set j: nat | j < n && InGrid(i, j) :: (i, j)
  }

  lemma {:induction false} ColumnSize(i: nat, n: nat)
    ensures |Column(i, n)| == n
    decreases n
  {
    if n == 0 {
      assert Column(i, n) == {};
    } else {
      ColumnSize(i, n - 1);
      assert InGrid(i, n - 1);
      assert Column(i, n) == Column(i, n - 1) + {(i, n - 1)};
    }
  }

  lemma {:induction false} GridSize(m: nat, n: nat)
    ensures |Grid(m, n)| == m * n
    decreases m
  {
    if m == 0 {
      assert Grid(m, n) == {};
    } else {
      GridSize(m - 1, n);
      ColumnSize(m - 1, n);
      assert Grid(m, n) == Grid(m - 1, n) + Column(m - 1, n);
      assert Grid(m - 1, n) !! Column(m - 1, n);
      assert (m - 1) * n + n == m * n;
    }
  }

  function Visits(ms: multiset<Copy>): set<(nat, nat)> {
    set c | c in ms :: (c.id, c.at)
  }

  /** Copies that go to different nodes or belong to different frames are no more than such pairs. */
  lemma {:induction false} CountVisits(ms: multiset<Copy>)
    requires forall c :: c in ms ==> ms[c] == 1
    requires forall c, k :: c in ms && k in ms && c.id == k.id && c.at == k.at ==> c == k
    ensures |ms| == |Visits(ms)|
    decreases |ms|
  {
    if ms != multiset{} {
      var c :| c in ms;
      var rest := ms - multiset{c};
      assert c !in rest;
      CountVisits(rest);
      assert Visits(ms) == Visits(rest) + {(c.id, c.at)};
      assert (c.id, c.at) !in Visits(rest);
    }
  }

  lemma HandledBound(g: Topology, net: Net)
    requires Sound(g) && CopiesInv(g, net)
    ensures |net.handled| <= |net.messages| * |g.tree.parent|
  {
    var m, n := |net.messages|, |g.tree.parent|;
    forall c | c in net.handled
      ensures net.handled[c] == 1 && c.id < m && c.at < n
    {
      assert c in Copies(net) && Once(g, net, c);
    }
    forall c, k | c in net.handled && k in net.handled && c.id == k.id && c.at == k.at
      ensures c == k
    {
      assert Once(g, net, c) && Once(g, net, k);
    }
    hide CopiesInv, Sound;
    CountVisits(net.handled);
    forall c | c in net.handled
      ensures (c.id, c.at) in Grid(m, n)
    {
      assert InGrid(c.id, c.at);
    }
    SubsetSize(Visits(net.handled), Grid(m, n));
    GridSize(m, n);
  }

  /** However the network is scheduled, each frame sent causes at most one processing step a node,
      and a copy in flight can always be processed, so forwarding ends. */
  lemma ForwardingEnds(g: Topology, run: seq<Step>)
    requires Sound(g) && Possible(g, Start(g), run)
    ensures Handlings(run) <= Emissions(run) * |g.tree.parent|
    ensures forall c :: c in After(g, Start(g), run).flying ==>
      Enabled(g, After(g, Start(g), run), Take(c)) || Enabled(g, After(g, Start(g), run), Relay(c))
  {
    hide Start, Possible, After, TablesInv, MessagesInv, CopiesInv, Handlings, Emissions, Sound;
    RunKeeps(g, run);
    RunCounts(g, run);
    HandledBound(g, After(g, Start(g), run));
  }

  /** One more step of a run, processing a copy. */
  lemma Processes(g: Topology, run: seq<Step>, c: Copy) returns (step: Step)
    requires Sound(g) && Possible(g, Start(g), run) && c in After(g, Start(g), run).flying
    ensures Possible(g, Start(g), run + [step]) && !step.Emit?
    ensures Handlings(run + [step]) == Handlings(run) + 1 && Emissions(run + [step]) == Emissions(run)
    ensures After(g, Start(g), run + [step]).messages == After(g, Start(g), run).messages
  {
    hide Start, Sound, Copies, Relayable;
    step := if c.at in g.hosts then Take(c) else Relay(c);
    assert (run + [step])[..|run + [step]| - 1] == run;
  }

  /** Every run can be continued, without new frames and within the bound, until nothing is in flight. */
  lemma {:induction false} Drains(g: Topology, run: seq<Step>) returns (more: seq<Step>)
    requires Sound(g) && Possible(g, Start(g), run)
    ensures Possible(g, Start(g), run + more) && forall step :: step in more ==> !step.Emit?
    ensures |more| <= Emissions(run) * |g.tree.parent| - Handlings(run)
    ensures var net, net' := After(g, Start(g), run), After(g, Start(g), run + more);
      net'.flying == multiset{} && net'.messages == net.messages
    decreases Emissions(run) * |g.tree.parent| - Handlings(run)
  {
    hide Start, Possible, After, Handlings, Emissions, Sound;
    ForwardingEnds(g, run);
    if After(g, Start(g), run).flying == multiset{} {
      more := [];
      assert run + more == run;
    } else {
      var c :| c in After(g, Start(g), run).flying;
      var step := Processes(g, run, c);
      ForwardingEnds(g, run + [step]);
      var rest := Drains(g, run + [step]);
      more := [step] + rest;
      assert run + more == run + [step] + rest;
    }
  }

  /** So every frame sent in a run to a host gets there, and exactly once. */
  lemma EveryFrameArrives(g: Topology, run: seq<Step>) returns (more: seq<Step>)
    requires Sound(g) && Possible(g, Start(g), run)
    ensures Possible(g, Start(g), run + more) && forall step :: step in more ==> !step.Emit?
    ensures |more| <= Emissions(run) * |g.tree.parent| - Handlings(run)
    ensures var net := After(g, Start(g), run + more);
      forall id, d :: 0 <= id < |After(g, Start(g), run).messages|
                      && Addressed(g, After(g, Start(g), run).messages[id], d) ==>
        ReceivedOnce(net, id, d)
  {
    hide Start, Possible, After, Handlings, Emissions, Sound;
    more := Drains(g, run);
    var net := After(g, Start(g), run + more);
    forall id, d | 0 <= id < |net.messages| && Addressed(g, net.messages[id], d)
      ensures ReceivedOnce(net, id, d)
    {
      DeliveredOnce(g, run + more, id, d);
    }
  }
}
