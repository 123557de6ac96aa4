/** switch.cc: the class, whose loops work in place on the table array. */
module Switch {
  import opened SwitchTable

  const EXTRA_SLOTS: nat := 1000

  class MySwitch {
    var portNum: nat
    var switchTable: array<Entry>

    ghost predicate Valid()
      reads this, switchTable
    {
      switchTable.Length == portNum + EXTRA_SLOTS && WellFormed(switchTable[..])
    }

    ghost function View(): Table
      reads this, switchTable
    {
      Rows(switchTable[..])
    }

    /** CreateSwitchObject followed by InitSwitch. */
    constructor InitSwitch(numPorts: nat)
      ensures Valid() && fresh(switchTable) && portNum == numPorts && View() == map[]
      ensures switchTable.Length == numPorts + 1000
    {
      portNum := numPorts;
      var none := Entry(false, [0, 0, 0, 0, 0, 0], -1, 0);
      switchTable := new Entry[numPorts + EXTRA_SLOTS](_ => none);
      new;
      if m :| m in View() {
        RowsOnly(switchTable[..], m);
        assert false;
      }
    }

    /** The ageing loop. */
    method AgeEntries()
      requires Valid()
      modifies switchTable
      ensures Valid() && View() == Age(old(View()))
      ensures forall m :: m in View() <==> m in old(View()) && old(View())[m].lifeTime > 1
      ensures forall m :: m in View() ==> View()[m] == Row(old(View())[m].port, old(View())[m].lifeTime - 1)
    {
      for i := 0 to switchTable.Length
        invariant forall k :: 0 <= k < i ==> switchTable[k] == AgedEntry(old(switchTable[..])[k])
        invariant forall k :: i <= k < switchTable.Length ==> switchTable[k] == old(switchTable[..])[k]
      {
        if switchTable[i].used {
          switchTable[i] := switchTable[i].(lifeTime := switchTable[i].lifeTime - 1);
        }
        if switchTable[i].lifeTime <= 0 {
          switchTable[i] := switchTable[i].(used := false);
        }
      }
      AgedRows(old(switchTable[..]), switchTable[..]);
    }

    /** The refreshing loop: tells whether the source had an entry. */
    method Refresh(src: Mac, inPort: int) returns (found: bool)
      requires Valid() && inPort > CONTROLLER_PORT
      modifies switchTable
      ensures Valid() && found == (src in old(View()))
      ensures View() == if found then old(View())[src := Row(inPort, 10)] else old(View())
    {
      found := false;
      ghost var es := switchTable[..];
      ghost var at := 0;
      for i := 0 to switchTable.Length
        invariant found ==> at < i && Holds(es, src, at)
        invariant switchTable[..] == if found then es[at := Entry(true, src, inPort, LIFETIME)] else es
        invariant !found ==> forall k :: 0 <= k < i ==> !Holds(es, src, k)
      {
        if switchTable[i].used && switchTable[i].mac == src {
          assert Holds(es, src, i);
          switchTable[i] := switchTable[i].(lifeTime := LIFETIME, port := inPort);
          found, at := true, i;
        }
      }
      if found {
        RowsHas(es, src, at);
        WrittenRows(es, at, src, inPort);
      } else if src in Rows(es) {
        RowsOnly(es, src);
        assert false;
      }
    }

    /** The inserting loop: takes the first free slot, if there is one. */
    method Insert(src: Mac, inPort: int)
      requires Valid() && inPort > CONTROLLER_PORT && src !in View()
      modifies switchTable
      ensures Valid()
      ensures View() == if |old(View())| < portNum + 1000 then old(View())[src := Row(inPort, 10)] else old(View())
    {
      ghost var es := switchTable[..];
      CapacityIsSlots(es);
      for i := 0 to switchTable.Length
        invariant switchTable[..] == es
        invariant forall k :: 0 <= k < i ==> es[k].used
      {
        if !switchTable[i].used {
          switchTable[i] := Entry(true, src, inPort, LIFETIME);
          assert switchTable[..] == es[i := Entry(true, src, inPort, LIFETIME)];
          WrittenRows(es, i, src, inPort);
          return;
        }
      }
    }

    /** The looking-up loop: the port of the destination, or 0. */
    method Find(dst: Mac) returns (port: int)
      requires Valid()
      ensures port == if dst in View() then View()[dst].port else 0
    {
      ghost var es := switchTable[..];
      for i := 0 to switchTable.Length
        invariant forall k :: 0 <= k < i ==> !Holds(es, dst, k)
      {
        if switchTable[i].used && switchTable[i].mac == dst {
          RowsHas(es, dst, i);
          return switchTable[i].port;
        }
      }
      if dst in View() {
        RowsOnly(es, dst);
        assert false;
      }
      return FLOOD;
    }

    /** A frame of the wrong type for its port changes nothing, ageing and refused frames return -1, and
        a data frame returns the destination's port, -1 for its own port, or 0 for none. */
    method ProcessFrame(f: Frame) returns (out: int)
      requires Valid() && f.inPort >= 1
      modifies switchTable
      ensures Valid()
      ensures (f.inPort == 1 && f.etherType != 1) || (f.inPort != 1 && f.etherType != 0) ==>
        out == -1 && View() == old(View())
      ensures f.inPort == 1 && f.etherType == 1 ==> out == -1 && View() == Age(old(View()))
      ensures f.inPort != 1 && f.etherType == 0 ==>
        && View() == (if f.src in old(View()) || |old(View())| < portNum + 1000
                      then old(View())[f.src := Row(f.inPort, 10)] else old(View()))
        && out == (if f.dst !in View() then 0
                   else if View()[f.dst].port == f.inPort then -1 else View()[f.dst].port)
      ensures View() == Next(portNum + EXTRA_SLOTS, old(View()), f)
      ensures out == Out(portNum + EXTRA_SLOTS, old(View()), f)
    {
      if f.inPort == CONTROLLER_PORT {
        if f.etherType != CONTROL_TYPE {
          return DROP;
        }
        AgeEntries();
        return DROP;
      }
      if f.etherType != DATA_TYPE {
        return DROP;
      }
      var upgrade := Refresh(f.src, f.inPort);
      if !upgrade {
        Insert(f.src, f.inPort);
      }
      var port := Find(f.dst);
      if port == 0 {
        return FLOOD;
      } else if port == f.inPort {
        return DROP;
      } else {
        return port;
      }
    }
  }
}
