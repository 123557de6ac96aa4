/** What a learning switch does, on a table that maps addresses to rows. */
module SwitchTable {

  /** mac_addr_t: six bytes. */
  type Mac = m: seq<bv8> | |m| == 6 witness [0, 0, 0, 0, 0, 0]

  const CONTROLLER_PORT: int := 1
  const DATA_TYPE: nat := 0
  const CONTROL_TYPE: nat := 1
  const FLOOD: int := 0
  const DROP: int := -1
  const LIFETIME: int := 10

  datatype Frame = Frame(inPort: int, etherType: nat, src: Mac, dst: Mac)

  datatype Row = Row(port: int, lifeTime: int)

  type Table = map<Mac, Row>

  predicate Ages(f: Frame) {
    f.inPort == CONTROLLER_PORT && f.etherType == CONTROL_TYPE
  }

  predicate Learns(f: Frame) {
    f.inPort != CONTROLLER_PORT && f.etherType == DATA_TYPE
  }

  function Age(t: Table): Table {
    map m | m in t && t[m].lifeTime > 1 :: Row(t[m].port, t[m].lifeTime - 1)
  }

  /** Refreshes or inserts the source; a new source is not learned when all `capacity` slots are used. */
  function Learn(capacity: nat, t: Table, src: Mac, inPort: int): Table {
    if src in t || |t| < capacity then t[src := Row(inPort, LIFETIME)] else t
  }

  function Forward(t: Table, dst: Mac, inPort: int): int {
    if dst !in t || t[dst].port == FLOOD then FLOOD
    else if t[dst].port == inPort then DROP
    else t[dst].port
  }

  function Next(capacity: nat, t: Table, f: Frame): Table {
    if Ages(f) then Age(t)
    else if Learns(f) then Learn(capacity, t, f.src, f.inPort)
    else t
  }

  /** The returned port: where to send the frame, to flood it, or to drop it. */
  function Out(capacity: nat, t: Table, f: Frame): int {
    if Learns(f) then Forward(Next(capacity, t, f), f.dst, f.inPort) else DROP
  }

  // ----- the array that holds such a table -----

  datatype Entry = Entry(used: bool, mac: Mac, port: int, lifeTime: int)

  /** Used entries have different addresses, lifetimes of 1 to 10, and ports of hosts or switches. */
  predicate WellFormed(es: seq<Entry>) {
    && (forall i, j :: 0 <= i < j < |es| && es[i].used && es[j].used ==> es[i].mac != es[j].mac)
    && (forall i :: 0 <= i < |es| && es[i].used ==> 1 <= es[i].lifeTime <= LIFETIME && es[i].port > CONTROLLER_PORT)
  }

  function Rows(es: seq<Entry>): Table {
    if es == [] then map[]
    else
      var e := es[|es| - 1];
      if e.used then Rows(es[..|es| - 1])[e.mac := Row(e.port, e.lifeTime)] else Rows(es[..|es| - 1])
  }

  function UsedCount(es: seq<Entry>): nat {
    if es == [] then 0 else UsedCount(es[..|es| - 1]) + if es[|es| - 1].used then 1 else 0
  }

  predicate Holds(es: seq<Entry>, m: Mac, i: int) {
    0 <= i < |es| && es[i].used && es[i].mac == m
  }

  lemma {:induction false} RowsOnly(es: seq<Entry>, m: Mac)
    requires m in Rows(es)
    ensures exists i :: Holds(es, m, i)
  {
    var n := |es| - 1;
    if Holds(es, m, n) {
    } else {
      RowsOnly(es[..n], m);
      var i :| Holds(es[..n], m, i);
      assert Holds(es, m, i);
    }
  }

  lemma {:induction false} RowsHas(es: seq<Entry>, m: Mac, i: int)
    requires WellFormed(es) && Holds(es, m, i)
    ensures m in Rows(es) && Rows(es)[m] == Row(es[i].port, es[i].lifeTime)
  {
    var n := |es| - 1;
    if i < n {
      assert WellFormed(es[..n]);
      RowsHas(es[..n], m, i);
    }
  }

  lemma {:induction false} RowsSize(es: seq<Entry>)
    requires WellFormed(es)
    ensures |Rows(es)| == UsedCount(es)
  {
    if es != [] {
      var n := |es| - 1;
      assert WellFormed(es[..n]);
      RowsSize(es[..n]);
      if es[n].used && es[n].mac in Rows(es[..n]) {
        RowsOnly(es[..n], es[n].mac);
        assert false;
      }
    }
  }

  lemma {:induction false} FreeSlot(es: seq<Entry>)
    ensures UsedCount(es) <= |es|
    ensures UsedCount(es) < |es| <==> exists i :: 0 <= i < |es| && !es[i].used
  {
    if es != [] {
      var init := es[..|es| - 1];
      FreeSlot(init);
      assert forall i :: 0 <= i < |init| ==> init[i] == es[i];
    }
  }

  /** The table has a row to spare exactly when the array has a free slot. */
  lemma CapacityIsSlots(es: seq<Entry>)
    requires WellFormed(es)
    ensures |Rows(es)| < |es| <==> exists i :: 0 <= i < |es| && !es[i].used
  {
    RowsSize(es);
    FreeSlot(es);
  }

  /** Two tables with the same rows. */
  lemma SameTable(a: Table, b: Table)
    requires forall m :: m in a ==> m in b && a[m] == b[m]
    requires forall m :: m in b ==> m in a
    ensures a == b
  {
  }

  /** What ageing does to one entry, used or not. */
  function AgedEntry(e: Entry): Entry {
    var d := if e.used then e.(lifeTime := e.lifeTime - 1) else e;
    if d.lifeTime <= 0 then d.(used := false) else d
  }

  predicate AllAged(es: seq<Entry>, es': seq<Entry>) {
    |es'| == |es| && forall i :: 0 <= i < |es| ==> es'[i] == AgedEntry(es[i])
  }

  lemma AgedWellFormed(es: seq<Entry>, es': seq<Entry>)
    requires WellFormed(es) && AllAged(es, es')
    ensures WellFormed(es')
  {
  }

  lemma AgedRow(es: seq<Entry>, es': seq<Entry>, m: Mac)
    requires WellFormed(es) && AllAged(es, es') && WellFormed(es')
    ensures m in Rows(es') <==> m in Age(Rows(es))
    ensures m in Rows(es') ==> Rows(es')[m] == Age(Rows(es))[m]
  {
    if m in Rows(es') {
      RowsOnly(es', m);
      var i :| Holds(es', m, i);
      RowsHas(es, m, i);
      RowsHas(es', m, i);
    }
    if m in Age(Rows(es)) {
      RowsOnly(es, m);
      var i :| Holds(es, m, i);
      RowsHas(es, m, i);
      RowsHas(es', m, i);
    }
  }

  lemma AgedRows(es: seq<Entry>, es': seq<Entry>)
    requires WellFormed(es) && AllAged(es, es')
    ensures WellFormed(es') && Rows(es') == Age(Rows(es))
  {
    hide Rows, Age, WellFormed, AllAged;
    AgedWellFormed(es, es');
    forall m: Mac
      ensures m in Rows(es') <==> m in Age(Rows(es))
      ensures m in Rows(es') ==> Rows(es')[m] == Age(Rows(es))[m]
    {
      AgedRow(es, es', m);
    }
    SameTable(Rows(es'), Age(Rows(es)));
  }

  /** Writing a fresh row for `m` over the entry that holds it, or over a free one. */
  lemma WrittenRows(es: seq<Entry>, i: nat, m: Mac, port: int)
    requires WellFormed(es) && i < |es| && port > CONTROLLER_PORT
    requires Holds(es, m, i) || (!es[i].used && m !in Rows(es))
    ensures var es' := es[i := Entry(true, m, port, LIFETIME)];
      WellFormed(es') && Rows(es') == Rows(es)[m := Row(port, LIFETIME)]
  {
    var es' := es[i := Entry(true, m, port, LIFETIME)];
    var t := Rows(es)[m := Row(port, LIFETIME)];
    forall j | 0 <= j < |es| && j != i && es[j].used
      ensures es[j].mac != m
    {
      if es[j].mac == m {
        assert Holds(es, m, j);
        RowsHas(es, m, j);
      }
    }
    assert WellFormed(es');
    forall k | k in Rows(es')
      ensures k in t && Rows(es')[k] == t[k]
    {
      RowsOnly(es', k);
      var j :| Holds(es', k, j);
      RowsHas(es', k, j);
      if j != i {
        assert Holds(es, k, j);
        RowsHas(es, k, j);
      }
    }
    forall k | k in t
      ensures k in Rows(es')
    {
      if k == m {
        assert Holds(es', m, i);
        RowsHas(es', m, i);
      } else {
        RowsOnly(es, k);
        var j :| Holds(es, k, j);
        assert Holds(es', k, j);
        RowsHas(es', k, j);
      }
    }
    SameTable(Rows(es'), t);
  }
}
