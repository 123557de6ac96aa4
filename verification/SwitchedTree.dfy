/** Hosts on a tree of learning switches: whatever the switches have learned, forgotten or had no
    room for, each frame visits each node at most once and reaches its destination exactly once. */
module SwitchedTree {
  import opened SwitchTable
  import opened Trees

  /** Hosts are the leaves with addresses; a switch numbers the links to its neighbours. */
  datatype Topology = Topology(
    tree: Tree,
    hosts: set<Node>,
    mac: map<Node, Mac>,
    port: map<(Node, Node), int>,
    capacity: nat)

  predicate IsSwitch(g: Topology, v: Node) {
    g.tree.Has(v) && v !in g.hosts
  }

  ghost predicate Sound(g: Topology) {
    && g.tree.Valid()
    && (forall h :: h in g.hosts ==> g.tree.Has(h) && h in g.mac)
    && (forall h, k :: h in g.hosts && k in g.hosts && g.mac[h] == g.mac[k] ==> h == k)
    && (forall h: Node, u: Node, v: Node :: h in g.hosts && g.tree.Linked(h, u) && g.tree.Linked(h, v) ==> u == v)
    && (forall v: Node, u: Node :: g.tree.Linked(v, u) ==> (v, u) in g.port && g.port[(v, u)] > CONTROLLER_PORT)
    && (forall v: Node, u: Node, w: Node ::
          g.tree.Linked(v, u) && g.tree.Linked(v, w) && g.port[(v, u)] == g.port[(v, w)] ==> u == w)
  }

  datatype Message = Message(src: Node, dst: Mac)

  /** A copy of message `id` on the link between `from` and `at`. */
  datatype Copy = Copy(id: nat, from: Node, at: Node)

  datatype Net = Net(
    tables: map<Node, Table>,
    messages: seq<Message>,
    flying: multiset<Copy>,    // on a link or in the input buffer of `at`
    handled: multiset<Copy>)   // already processed by `at`

  datatype Step =
    | Emit(src: Node, to: Node, dst: Mac)   // a host sends a frame
    | Take(c: Copy)                         // a host receives a copy
    | Relay(c: Copy)                        // a switch processes a copy
    | Ageing(v: Node)                       // the controller ages a switch

  function Copies(net: Net): multiset<Copy> {
    net.flying + net.handled
  }

  function Start(g: Topology): Net {
    Net(map v: Node | v < |g.tree.parent| && IsSwitch(g, v) :: map[], [], multiset{}, multiset{})
  }

  predicate Enabled(g: Topology, net: Net, step: Step) {
    match step
    case Emit(s, u, m) => s in g.hosts && g.tree.Linked(s, u)
    case Take(c) => c in net.flying && c.at in g.hosts
    case Relay(c) => c in net.flying && c.at !in g.hosts
    case Ageing(v) => IsSwitch(g, v)
  }

  /** The frame as the switch sees it. */
  function FrameOf(g: Topology, net: Net, c: Copy): Frame
    requires c.id < |net.messages| && net.messages[c.id].src in g.mac && (c.at, c.from) in g.port
  {
    Frame(g.port[(c.at, c.from)], DATA_TYPE, g.mac[net.messages[c.id].src], net.messages[c.id].dst)
  }

  /** The neighbours a returned port stands for. */
  function Targets(g: Topology, v: Node, from: Node, out: int): set<Node> {
    set u: Node | u < |g.tree.parent| && g.tree.Linked(v, u)
                  && (if out == FLOOD then u != from else (v, u) in g.port && g.port[(v, u)] == out)
  }

  function Sends(id: nat, v: Node, us: set<Node>): set<Copy> {
    set u | u in us :: Copy(id, v, u)
  }

  /** A copy a switch can process: its frame and the switch's table exist. */
  predicate Relayable(g: Topology, net: Net, c: Copy) {
    c.id < |net.messages| && net.messages[c.id].src in g.mac && (c.at, c.from) in g.port && c.at in net.tables
  }

  function OutPort(g: Topology, net: Net, c: Copy): int
    requires Relayable(g, net, c)
  {
    Out(g.capacity, net.tables[c.at], FrameOf(g, net, c))
  }

  function Apply(g: Topology, net: Net, step: Step): Net {
    match step
    case Emit(s, u, m) =>
      net.(messages := net.messages + [Message(s, m)],
           flying := net.flying + multiset{Copy(|net.messages|, s, u)})
    case Take(c) =>
      net.(flying := net.flying - multiset{c}, handled := net.handled + multiset{c})
    case Relay(c) =>
      if !Relayable(g, net, c) then net
      else
        net.(tables := net.tables[c.at := Next(g.capacity, net.tables[c.at], FrameOf(g, net, c))],
             flying := net.flying - multiset{c}
                       + multiset(Sends(c.id, c.at, Targets(g, c.at, c.from, OutPort(g, net, c)))),
             handled := net.handled + multiset{c})
    case Ageing(v) =>
      if v in net.tables then net.(tables := net.tables[v := Age(net.tables[v])]) else net
  }

  function After(g: Topology, net: Net, run: seq<Step>): Net {
    if run == [] then net else Apply(g, After(g, net, run[..|run| - 1]), run[|run| - 1])
  }

  predicate Possible(g: Topology, net: Net, run: seq<Step>) {
    run == [] || (Possible(g, net, run[..|run| - 1])
                  && Enabled(g, After(g, net, run[..|run| - 1]), run[|run| - 1]))
  }

  // ----- what holds in every reachable state -----

  predicate IsHostMac(g: Topology, m: Mac) {
    exists h :: h in g.hosts && h in g.mac && g.mac[h] == m
  }

  /** Every row of a switch points along the tree to the host it is about. */
  ghost predicate Routes(g: Topology, v: Node, t: Table)
    requires Sound(g)
  {
    && (forall m :: m in t ==> IsHostMac(g, m))
    && (forall h :: h in g.hosts && h != v && g.tree.Has(v) && g.mac[h] in t ==>
          g.tree.Linked(v, g.tree.Toward(v, h)) && t[g.mac[h]].port == g.port[(v, g.tree.Toward(v, h))])
  }

  ghost predicate TablesInv(g: Topology, net: Net)
    requires Sound(g)
  {
    && (forall v :: IsSwitch(g, v) ==> v in net.tables)
    && (forall v :: v in net.tables ==> IsSwitch(g, v) && Routes(g, v, net.tables[v]))
  }

  /** A copy has come straight from its sender's side. */
  predicate Outward(g: Topology, messages: seq<Message>, c: Copy)
    requires g.tree.Valid()
  {
    && c.id < |messages|
    && var s := messages[c.id].src;
       s in g.hosts && g.tree.Has(s) && g.tree.Linked(c.from, c.at) && c.at != s && g.tree.Toward(c.at, s) == c.from
  }

  /** A copy exists once, and the node it comes from has processed the message, or has sent it. */
  predicate Once(g: Topology, net: Net, c: Copy)
    requires g.tree.Valid()
  {
    && Outward(g, net.messages, c) && Copies(net)[c] == 1
    && var s := net.messages[c.id].src;
       c.from != s ==> Copy(c.id, g.tree.Toward(c.from, s), c.from) in net.handled
  }

  ghost predicate CopiesInv(g: Topology, net: Net)
    requires Sound(g)
  {
    forall c :: c in Copies(net) ==> Once(g, net, c)
  }

  /** The copy of message `id` that goes to `v`. */
  function CopyTo(g: Topology, net: Net, id: nat, v: Node): Copy
    requires g.tree.Valid() && id < |net.messages| && g.tree.Has(v) && g.tree.Has(net.messages[id].src)
    requires v != net.messages[id].src
  {
    Copy(id, g.tree.Toward(v, net.messages[id].src), v)
  }

  /** A copy still to be processed at `v`, which is on the way to `d`. */
  predicate OnItsWay(g: Topology, net: Net, id: nat, d: Node, v: Node)
    requires g.tree.Valid() && id < |net.messages| && g.tree.Has(d) && g.tree.Has(net.messages[id].src)
  {
    var s := net.messages[id].src;
    g.tree.Has(v) && v != s && v != d && g.tree.Between(v, s, d) && CopyTo(g, net, id, v) in net.flying
  }

  /** The message has got to its destination's link, or a copy is on its way there. */
  ghost predicate Served(g: Topology, net: Net, id: nat, d: Node)
    requires g.tree.Valid() && id < |net.messages| && g.tree.Has(d) && g.tree.Has(net.messages[id].src)
    requires d != net.messages[id].src
  {
    CopyTo(g, net, id, d) in Copies(net) || exists v :: OnItsWay(g, net, id, d, v)
  }

  /** `d` is the host, other than the sender, that a message is for. */
  predicate Addressed(g: Topology, m: Message, d: Node) {
    d in g.hosts && d in g.mac && d != m.src && g.mac[d] == m.dst
  }

  ghost predicate MessagesInv(g: Topology, net: Net)
    requires Sound(g)
  {
    && (forall id :: 0 <= id < |net.messages| ==> net.messages[id].src in g.hosts)
    && (forall id, d :: 0 <= id < |net.messages| && Addressed(g, net.messages[id], d) ==> Served(g, net, id, d))
  }

  ghost predicate Inv(g: Topology, net: Net)
    requires Sound(g)
  {
    TablesInv(g, net) && CopiesInv(g, net) && MessagesInv(g, net)
  }

  lemma InvAtStart(g: Topology)
    requires Sound(g)
    ensures Inv(g, Start(g))
  {
  }

  lemma AgeingKeeps(g: Topology, net: Net, v: Node)
    requires Sound(g) && Inv(g, net)
    ensures Inv(g, Apply(g, net, Ageing(v)))
  {
    var net' := Apply(g, net, Ageing(v));
    hide Sound, Outward, Served, IsHostMac;
    assert Copies(net') == Copies(net);
    assert TablesInv(g, net');
    MessagesFrame(g, net, net');
  }

  /** Served messages stay served while nothing in flight is processed. */
  lemma MessagesFrame(g: Topology, net: Net, net': Net)
    requires Sound(g) && MessagesInv(g, net)
    requires net'.messages == net.messages && net.flying <= net'.flying && Copies(net) <= Copies(net')
    ensures MessagesInv(g, net')
  {
    forall id, d | 0 <= id < |net.messages| && Addressed(g, net.messages[id], d)
      ensures Served(g, net', id, d)
    {
      assert Served(g, net, id, d);
      if CopyTo(g, net, id, d) in Copies(net) {
        assert CopyTo(g, net', id, d) in Copies(net');
      } else {
        var v :| OnItsWay(g, net, id, d, v);
        assert OnItsWay(g, net', id, d, v);
      }
    }
  }

  // ----- a host sends -----

  lemma HostIsLeaf(g: Topology, h: Node, x: Node, y: Node)
    requires Sound(g) && h in g.hosts && g.tree.Has(x) && g.tree.Has(y) && x != h && y != h
    ensures g.tree.Toward(h, x) == g.tree.Toward(h, y)
  {
    g.tree.TowardIsLinked(h, x);
    g.tree.TowardIsLinked(h, y);
  }

  lemma EmitCopies(g: Topology, net: Net, s: Node, u: Node, m: Mac)
    requires Sound(g) && Inv(g, net) && Enabled(g, net, Emit(s, u, m))
    ensures CopiesInv(g, Apply(g, net, Emit(s, u, m)))
  {
    var net' := Apply(g, net, Emit(s, u, m));
    var c := Copy(|net.messages|, s, u);
    g.tree.TowardNeighbour(u, s);
    hide TablesInv, MessagesInv;
    assert Outward(g, net'.messages, c);
    assert c !in Copies(net);
    assert Copies(net') == Copies(net) + multiset{c};
  }

  lemma EmitKeeps(g: Topology, net: Net, s: Node, u: Node, m: Mac)
    requires Sound(g) && Inv(g, net) && Enabled(g, net, Emit(s, u, m))
    ensures Inv(g, Apply(g, net, Emit(s, u, m)))
  {
    hide Routes, CopiesInv, MessagesInv, Sound, Copies;
    EmitCopies(g, net, s, u, m);
    EmitServes(g, net, s, u, m);
  }

  lemma EmitServes(g: Topology, net: Net, s: Node, u: Node, m: Mac)
    requires Sound(g) && Inv(g, net) && Enabled(g, net, Emit(s, u, m))
    ensures MessagesInv(g, Apply(g, net, Emit(s, u, m)))
  {
    hide CopiesInv, TablesInv;
    var net' := Apply(g, net, Emit(s, u, m));
    forall id, d | 0 <= id < |net'.messages| && Addressed(g, net'.messages[id], d)
      ensures Served(g, net', id, d)
    {
      if id < |net.messages| {
        assert Served(g, net, id, d);
        if CopyTo(g, net, id, d) !in Copies(net) {
          var v :| OnItsWay(g, net, id, d, v);
          assert OnItsWay(g, net', id, d, v);
        }
      } else {
        g.tree.TowardNeighbour(s, u);
        g.tree.TowardNeighbour(u, s);
        HostIsLeaf(g, s, d, u);
        g.tree.BetweenContinues(s, s, d);
        assert CopyTo(g, net', id, u) == Copy(id, s, u);
        assert u == d || OnItsWay(g, net', id, d, u);
      }
    }
  }

  // ----- a host receives -----

  lemma MoveToHandled(net: Net, net': Net, c: Copy)
    requires c in net.flying && net'.flying == net.flying - multiset{c} && net'.handled == net.handled + multiset{c}
    ensures Copies(net') == Copies(net)
  {
  }

  lemma TakeCopies(g: Topology, net: Net, c: Copy)
    requires Sound(g) && Inv(g, net) && Enabled(g, net, Take(c))
    ensures CopiesInv(g, Apply(g, net, Take(c)))
  {
    hide TablesInv, MessagesInv, Outward;
    var net' := Apply(g, net, Take(c));
    MoveToHandled(net, net', c);
    assert net'.handled >= net.handled;
  }

  lemma TakeServes(g: Topology, net: Net, c: Copy, id: nat, d: Node)
    requires Sound(g) && Inv(g, net) && Enabled(g, net, Take(c))
    requires id < |net.messages| && Addressed(g, net.messages[id], d)
    ensures Served(g, Apply(g, net, Take(c)), id, d)
  {
    hide TablesInv, CopiesInv;
    var net' := Apply(g, net, Take(c));
    MoveToHandled(net, net', c);
    assert Served(g, net, id, d);
    if CopyTo(g, net, id, d) !in Copies(net) {
      var v :| OnItsWay(g, net, id, d, v);
      // a host has one link, so it cannot lie between two other nodes
      if v in g.hosts {
        HostIsLeaf(g, v, net.messages[id].src, d);
        assert false;
      }
      assert OnItsWay(g, net', id, d, v);
    }
  }

  lemma TakeKeeps(g: Topology, net: Net, c: Copy)
    requires Sound(g) && Inv(g, net) && Enabled(g, net, Take(c))
    ensures Inv(g, Apply(g, net, Take(c)))
  {
    hide Routes, CopiesInv, Sound, Copies, Served, Addressed;
    TakeCopies(g, net, c);
    HostsAreNodes(g, net);
    forall id, d | 0 <= id < |net.messages| && Addressed(g, net.messages[id], d)
      ensures Served(g, Apply(g, net, Take(c)), id, d)
    {
      TakeServes(g, net, c, id, d);
    }
  }

  lemma HostsAreNodes(g: Topology, net: Net)
    requires Sound(g) && MessagesInv(g, net)
    ensures g.tree.Valid()
    ensures forall id :: 0 <= id < |net.messages| ==> g.tree.Has(net.messages[id].src)
    ensures forall m, d :: Addressed(g, m, d) ==> g.tree.Has(d) && d != m.src
  {
  }

  // ----- a switch relays -----

  lemma RelayReady(g: Topology, net: Net, c: Copy)
    requires Sound(g) && Inv(g, net) && Enabled(g, net, Relay(c))
    ensures Relayable(g, net, c) && Outward(g, net.messages, c) && IsSwitch(g, c.at)
  {
    hide MessagesInv;
    assert c in Copies(net);
  }

  /** Learning the sender keeps every row pointing to its host. */
  lemma LearnKeepsRoutes(g: Topology, net: Net, c: Copy)
    requires Sound(g) && Inv(g, net) && Enabled(g, net, Relay(c)) && Relayable(g, net, c)
    ensures Routes(g, c.at, Next(g.capacity, net.tables[c.at], FrameOf(g, net, c)))
  {
    RelayReady(g, net, c);
    hide CopiesInv, MessagesInv;
    var s := net.messages[c.id].src;
    assert IsHostMac(g, g.mac[s]);
  }

  lemma RelayTables(g: Topology, net: Net, c: Copy)
    requires Sound(g) && Inv(g, net) && Enabled(g, net, Relay(c))
    ensures TablesInv(g, Apply(g, net, Relay(c)))
  {
    RelayReady(g, net, c);
    LearnKeepsRoutes(g, net, c);
    hide CopiesInv, MessagesInv, Routes, Sound, Next, FrameOf, Targets;
  }

  /** A switch sends only to neighbours away from the sender. */
  lemma TargetsAreOutward(g: Topology, net: Net, c: Copy, u: Node)
    requires Sound(g) && Inv(g, net) && Enabled(g, net, Relay(c)) && Relayable(g, net, c)
    requires u in Targets(g, c.at, c.from, OutPort(g, net, c))
    ensures g.tree.Linked(c.at, u) && u != c.from && Outward(g, net.messages, Copy(c.id, c.at, u))
  {
    RelayReady(g, net, c);
    var s := net.messages[c.id].src;
    hide TablesInv, MessagesInv, CopiesInv, Next;
    assert u != c.from;
    g.tree.BackAndForth(c.at, u, s);
  }

  /** A relayed copy is new: the neighbour could only have got one from here, and this switch has
      not processed the message before. */
  lemma RelayedIsNew(g: Topology, net: Net, c: Copy, u: Node)
    requires Sound(g) && Inv(g, net) && Enabled(g, net, Relay(c)) && Relayable(g, net, c)
    requires u in Targets(g, c.at, c.from, OutPort(g, net, c))
    ensures Copy(c.id, c.at, u) !in Copies(net)
  {
    RelayReady(g, net, c);
    hide TablesInv, MessagesInv, Targets, Next, Relayable;
    assert Once(g, net, c);
    assert Copies(net)[c] == net.flying[c] + net.handled[c];
    assert c !in net.handled;
  }

  lemma RelayCopies(g: Topology, net: Net, c: Copy)
    requires Sound(g) && Inv(g, net) && Enabled(g, net, Relay(c))
    ensures CopiesInv(g, Apply(g, net, Relay(c)))
    ensures Relayable(g, net, c)
    ensures Copies(Apply(g, net, Relay(c)))
         == Copies(net) + multiset(Sends(c.id, c.at, Targets(g, c.at, c.from, OutPort(g, net, c))))
  {
    RelayReady(g, net, c);
    var us := Targets(g, c.at, c.from, OutPort(g, net, c));
    forall u | u in us
      ensures Copy(c.id, c.at, u) !in Copies(net) && Outward(g, net.messages, Copy(c.id, c.at, u))
    {
      RelayedIsNew(g, net, c, u);
      TargetsAreOutward(g, net, c, u);
    }
    hide Relayable, OutPort, Targets, TablesInv, MessagesInv;
    var net' := Apply(g, net, Relay(c));
    CopiesAdded(g, net, net', c, us);
  }

  /** Copies of before are as they were. */
  lemma OldCopy(g: Topology, net: Net, net': Net, k: Copy)
    requires g.tree.Valid() && Once(g, net, k)
    requires net'.messages == net.messages && net.handled <= net'.handled && Copies(net')[k] == 1
    ensures Once(g, net', k)
  {
  }

  lemma NewCopy(g: Topology, net': Net, c: Copy, k: Copy)
    requires g.tree.Valid() && Outward(g, net'.messages, c) && c in net'.handled
    requires k.id == c.id && k.from == c.at && Outward(g, net'.messages, k) && Copies(net')[k] == 1
    ensures Once(g, net', k)
  {
  }

  lemma CopiesAdded(g: Topology, net: Net, net': Net, c: Copy, us: set<Node>)
    requires Sound(g) && CopiesInv(g, net) && c in net.flying && net'.messages == net.messages
    requires net'.flying == net.flying - multiset{c} + multiset(Sends(c.id, c.at, us))
    requires net'.handled == net.handled + multiset{c}
    requires forall u :: u in us ==>
      Copy(c.id, c.at, u) !in Copies(net) && Outward(g, net.messages, Copy(c.id, c.at, u))
    ensures CopiesInv(g, net') && Copies(net') == Copies(net) + multiset(Sends(c.id, c.at, us))
  {
    assert c in Copies(net) && g.tree.Valid();
    assert Once(g, net, c);
    hide Sound, Outward, Once;
    OnceOutward(g, net, c);
    var added := multiset(Sends(c.id, c.at, us));
    assert Copies(net') == Copies(net) + added;
    forall k | k in Copies(net')
      ensures Once(g, net', k)
    {
      if k in added {
        assert k !in Copies(net);
        NewCopy(g, net', c, k);
      } else {
        OnceOutward(g, net, k);
        OldCopy(g, net, net', k);
      }
    }
  }

  lemma OnceOutward(g: Topology, net: Net, c: Copy)
    requires g.tree.Valid() && Once(g, net, c)
    ensures Outward(g, net.messages, c) && Copies(net)[c] == 1
  {
  }

  /** On the way to the destination the switch always sends a copy to the next node of the way,
      whether it knows the destination or floods. */
  lemma RelaysOnward(g: Topology, net: Net, c: Copy, d: Node)
    requires Sound(g) && Inv(g, net) && Enabled(g, net, Relay(c)) && Relayable(g, net, c)
    requires Outward(g, net.messages, c) && Addressed(g, net.messages[c.id], d) && c.at != d
    requires g.tree.Has(c.at) && g.tree.Between(c.at, net.messages[c.id].src, d)
    ensures g.tree.Toward(c.at, d) in Targets(g, c.at, c.from, OutPort(g, net, c))
  {
    LearnKeepsRoutes(g, net, c);
    g.tree.TowardIsLinked(c.at, d);
    hide TablesInv, MessagesInv, CopiesInv, Next;
    var w := g.tree.Toward(c.at, d);
    assert w != c.from;
    assert g.port[(c.at, w)] != g.port[(c.at, c.from)];
  }

  lemma RelayServes(g: Topology, net: Net, c: Copy, id: nat, d: Node)
    requires Sound(g) && Inv(g, net) && Enabled(g, net, Relay(c))
    requires id < |net.messages| && Addressed(g, net.messages[id], d)
    ensures Served(g, Apply(g, net, Relay(c)), id, d)
  {
    RelayReady(g, net, c);
    RelayCopies(g, net, c);
    var net' := Apply(g, net, Relay(c));
    var us := Targets(g, c.at, c.from, OutPort(g, net, c));
    assert Served(g, net, id, d);
    if CopyTo(g, net, id, d) !in Copies(net) {
      var v :| OnItsWay(g, net, id, d, v);
      if c == CopyTo(g, net, id, v) {
        RelaysOnward(g, net, c, d);
        g.tree.BetweenContinues(v, net.messages[id].src, d);
        hide TablesInv, MessagesInv, CopiesInv, Sound, Targets, OutPort, Relayable;
        OnwardServes(g, net, net', c, us, d);
      } else {
        hide TablesInv, MessagesInv, CopiesInv, Sound, Targets, OutPort, Relayable;
        assert OnItsWay(g, net', id, d, v);
      }
    }
  }

  lemma OnwardServes(g: Topology, net: Net, net': Net, c: Copy, us: set<Node>, d: Node)
    requires g.tree.Valid() && c.id < |net.messages| && g.tree.Has(d) && g.tree.Has(c.at)
    requires var s := net.messages[c.id].src; g.tree.Has(s) && d != s && c.at != d
    requires var s, w := net.messages[c.id].src, g.tree.Toward(c.at, d);
      w in us && w != s && g.tree.Between(w, s, d) && g.tree.Toward(w, s) == c.at
    requires net'.messages == net.messages
    requires net'.flying == net.flying - multiset{c} + multiset(Sends(c.id, c.at, us))
    ensures Served(g, net', c.id, d)
  {
    var w := g.tree.Toward(c.at, d);
    assert Copy(c.id, c.at, w) in Sends(c.id, c.at, us);
    assert CopyTo(g, net', c.id, w) in net'.flying;
    assert w == d || OnItsWay(g, net', c.id, d, w);
  }

  lemma RelayKeeps(g: Topology, net: Net, c: Copy)
    requires Sound(g) && Inv(g, net) && Enabled(g, net, Relay(c))
    ensures Inv(g, Apply(g, net, Relay(c)))
  {
    RelayTables(g, net, c);
    RelayCopies(g, net, c);
    hide Routes, CopiesInv, Sound, Copies, Served, Addressed, TablesInv, Relayable, Targets;
    HostsAreNodes(g, net);
    forall id, d | 0 <= id < |net.messages| && Addressed(g, net.messages[id], d)
      ensures Served(g, Apply(g, net, Relay(c)), id, d)
    {
      RelayServes(g, net, c, id, d);
    }
  }

  lemma StepKeeps(g: Topology, net: Net, step: Step)
    requires Sound(g) && Inv(g, net) && Enabled(g, net, step)
    ensures Inv(g, Apply(g, net, step))
  {
    match step
    case Emit(s, u, m) => EmitKeeps(g, net, s, u, m);
    case Take(c) => TakeKeeps(g, net, c);
    case Relay(c) => RelayKeeps(g, net, c);
    case Ageing(v) => AgeingKeeps(g, net, v);
  }

  lemma {:induction false} RunKeeps(g: Topology, run: seq<Step>)
    requires Sound(g) && Possible(g, Start(g), run)
    ensures Inv(g, After(g, Start(g), run))
    decreases |run|
  {
    hide Inv, Apply, Enabled, Sound, Start;
    if run == [] {
      InvAtStart(g);
    } else {
      RunKeeps(g, run[..|run| - 1]);
      StepKeeps(g, After(g, Start(g), run[..|run| - 1]), run[|run| - 1]);
    }
  }
}
