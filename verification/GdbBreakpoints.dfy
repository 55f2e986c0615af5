/**
 Software breakpoints: a table of patched addresses over a memory.
 */
module GdbBreakpoints {
  import opened Common

  const SLOTS: nat := 32
  const TRAP: Byte := 0xCC

  datatype Breakpoint = Breakpoint(addr: nat, saved: Byte, active: bool)

  /** Memory, the table, and `num_breakpoints`. */
  datatype Stub = Stub(mem: seq<Byte>, table: seq<Breakpoint>, count: int)

  /** `gdb_find_breakpoint` from slot i on: the first active slot with the address, or -1. */
  function Find(table: seq<Breakpoint>, addr: nat, i: nat): (k: int)
    requires i <= |table|
    ensures k == -1 || (i <= k < |table| && table[k].active && table[k].addr == addr)
    ensures forall j :: i <= j < |table| && (k == -1 || j < k) ==> !(table[j].active && table[j].addr == addr)
    decreases |table| - i
  {
    if i == |table| then -1 else if table[i].active && table[i].addr == addr then i else Find(table, addr, i + 1)
  }

  /** The first free slot from i on, or -1. */
  function Free(table: seq<Breakpoint>, i: nat): (k: int)
    requires i <= |table|
    ensures k == -1 || (i <= k < |table| && !table[k].active)
    ensures k == -1 ==> forall j :: i <= j < |table| ==> table[j].active
    decreases |table| - i
  {
    if i == |table| then -1 else if !table[i].active then i else Free(table, i + 1)
  }

  /** `gdb_set_breakpoint`: the new state and the return code. */
  function Set(s: Stub, addr: nat): (Stub, int)
    requires addr < |s.mem|
  {
    if Find(s.table, addr, 0) >= 0 then (s, 0)
    else
      var k := Free(s.table, 0);
      if k < 0 then (s, -1)
      else (Stub(s.mem[addr := TRAP], s.table[k := Breakpoint(addr, s.mem[addr], true)], s.count + 1), 0)
  }

  /** `gdb_remove_breakpoint`. */
  function Remove(s: Stub, addr: nat): (Stub, int)
    requires addr < |s.mem|
  {
    var k := Find(s.table, addr, 0);
    if k < 0 then (s, -1)
    else (Stub(s.mem[addr := s.table[k].saved], s.table[k := s.table[k].(active := false)], s.count - 1), 0)
  }

  // ------------------------------------------------------------------ the invariant

  function Active(table: seq<Breakpoint>): nat {
    if table == [] then 0 else Active(table[..|table| - 1]) + (if table[|table| - 1].active then 1 else 0)
  }

  ghost predicate Distinct(table: seq<Breakpoint>) {
    forall j, k :: 0 <= j < k < |table| && table[j].active && table[k].active ==> table[j].addr != table[k].addr
  }

  /** Active addresses are distinct and hold the trap instruction, and the counter counts them. */
  ghost predicate Inv(s: Stub) {
    && |s.table| == SLOTS && Distinct(s.table) && s.count == Active(s.table)
    && (forall k :: 0 <= k < SLOTS && s.table[k].active ==> s.table[k].addr < |s.mem| && s.mem[s.table[k].addr] == TRAP)
  }

  /** The byte the program would see at an address without the stub. */
  function Beneath(s: Stub, addr: nat): Byte
    requires addr < |s.mem|
  {
    var k := Find(s.table, addr, 0);
    if k < 0 then s.mem[addr] else s.table[k].saved
  }

  /** Memory with every active address replaced by its saved byte. */
  function Underlying(s: Stub): (m: seq<Byte>)
    ensures |m| == |s.mem|
  {
    seq(|s.mem|, a requires 0 <= a < |s.mem| => Beneath(s, a))
  }

  lemma {:induction false} ActiveUpdate(table: seq<Breakpoint>, k: nat, b: Breakpoint)
    requires k < |table|
    ensures Active(table[k := b]) == Active(table) + (if b.active then 1 else 0) - (if table[k].active then 1 else 0)
  {
    var n := |table| - 1;
    if k < n {
      ActiveUpdate(table[..n], k, b);
      assert table[k := b][..n] == table[..n][k := b];
    } else {
      assert table[k := b][..n] == table[..n];
    }
  }

  lemma {:induction false} NoneActive(table: seq<Breakpoint>)
    ensures Active(table) == 0 <==> forall k :: 0 <= k < |table| ==> !table[k].active
  {
    if table != [] {
      var n := |table| - 1;
      NoneActive(table[..n]);
      assert forall k :: 0 <= k < n ==> table[..n][k] == table[k];
    }
  }

  lemma {:induction false} ActiveAtMost(table: seq<Breakpoint>)
    ensures Active(table) <= |table|
    ensures Active(table) == |table| <==> forall k :: 0 <= k < |table| ==> table[k].active
  {
    if table != [] {
      var n := |table| - 1;
      ActiveAtMost(table[..n]);
      assert forall k :: 0 <= k < n ==> table[..n][k] == table[k];
    }
  }

  /** In a table of distinct addresses an active slot is the one a search finds. */
  lemma FindIs(table: seq<Breakpoint>, k: nat)
    requires Distinct(table) && k < |table| && table[k].active
    ensures Find(table, table[k].addr, 0) == k
  {
    var found := Find(table, table[k].addr, 0);
    assert found >= 0 && table[found].addr == table[k].addr;
  }

  /** Changing one slot does not disturb what another address finds. */
  lemma FindOther(table: seq<Breakpoint>, k: nat, b: Breakpoint, a: nat)
    requires k < |table| && Distinct(table) && Distinct(table[k := b])
    requires !(table[k].active && table[k].addr == a) && !(b.active && b.addr == a)
    ensures Find(table[k := b], a, 0) == Find(table, a, 0)
  {
    var p, q := Find(table, a, 0), Find(table[k := b], a, 0);
    if p >= 0 { FindIs(table[k := b], p); }
    if q >= 0 { FindIs(table, q); }
  }

  lemma SetKeeps(s: Stub, addr: nat)
    requires Inv(s) && addr < |s.mem|
    ensures Inv(Set(s, addr).0) && Underlying(Set(s, addr).0) == Underlying(s)
  {
    var t := Set(s, addr).0;
    var k := Free(s.table, 0);
    if t != s {
      ActiveUpdate(s.table, k, t.table[k]);
      forall a: nat | a < |s.mem| ensures Beneath(t, a) == Beneath(s, a) {
        if a == addr { FindIs(t.table, k); } else { FindOther(s.table, k, t.table[k], a); }
      }
    }
  }

  lemma RemoveKeeps(s: Stub, addr: nat)
    requires Inv(s) && addr < |s.mem|
    ensures Inv(Remove(s, addr).0) && Underlying(Remove(s, addr).0) == Underlying(s)
  {
    var t := Remove(s, addr).0;
    var k := Find(s.table, addr, 0);
    if k >= 0 {
      ActiveUpdate(s.table, k, t.table[k]);
      forall a: nat | a < |s.mem| ensures Beneath(t, a) == Beneath(s, a) {
        if a != addr { FindOther(s.table, k, t.table[k], a); }
      }
    }
  }

  /** The return codes: a breakpoint cannot be set only when all 32 slots hold other addresses,
      and can be removed only where one is. */
  lemma Codes(s: Stub, addr: nat)
    requires Inv(s) && addr < |s.mem|
    ensures Set(s, addr).1 == (if s.count == SLOTS && Find(s.table, addr, 0) < 0 then -1 else 0)
    ensures Remove(s, addr).1 == (if Find(s.table, addr, 0) < 0 then -1 else 0)
    ensures Set(s, addr).1 == 0 ==> Find(Set(s, addr).0.table, addr, 0) >= 0 && Set(s, addr).0.mem[addr] == TRAP
    ensures Find(Remove(s, addr).0.table, addr, 0) < 0
  {
    ActiveAtMost(s.table);
    SetKeeps(s, addr);
    RemoveKeeps(s, addr);
    var t := Set(s, addr).0;
    var k := if Find(s.table, addr, 0) >= 0 then Find(s.table, addr, 0) else Free(s.table, 0);
    if k >= 0 { FindIs(t.table, k); }
  }

  // ------------------------------------------------------------------ runs

  datatype Call = Plant(addr: nat) | Lift(addr: nat)

  function Step(s: Stub, c: Call): Stub
    requires c.addr < |s.mem|
  {
    match c
    case Plant(addr) => Set(s, addr).0
    case Lift(addr) => Remove(s, addr).0
  }

  function Run(s: Stub, calls: seq<Call>): (t: Stub)
    requires forall i :: 0 <= i < |calls| ==> calls[i].addr < |s.mem|
    ensures |t.mem| == |s.mem|
    decreases |calls|
  {
    if calls == [] then s else Run(Step(s, calls[0]), calls[1..])
  }

  /** Over every sequence of calls the memory beneath the breakpoints stays what it was. */
  lemma {:induction false} RunKeeps(s: Stub, calls: seq<Call>)
    requires Inv(s) && forall i :: 0 <= i < |calls| ==> calls[i].addr < |s.mem|
    ensures Inv(Run(s, calls)) && Underlying(Run(s, calls)) == Underlying(s)
    decreases |calls|
  {
    hide Inv, Underlying;
    if calls != [] {
      match calls[0] {
        case Plant(addr) => SetKeeps(s, addr);
        case Lift(addr) => RemoveKeeps(s, addr);
      }
      RunKeeps(Step(s, calls[0]), calls[1..]);
    }
  }

  /** With no breakpoint left, memory is what lies beneath. */
  lemma NothingPatched(s: Stub)
    requires Inv(s) && s.count == 0
    ensures s.mem == Underlying(s)
  {
    NoneActive(s.table);
  }

  /** The empty table over a memory. */
  function Fresh(mem: seq<Byte>): Stub { Stub(mem, seq(SLOTS, _ => Breakpoint(0, 0, false)), 0) }

  /** However breakpoints were set and removed, whenever none is left memory is exactly as it was
      at the start; and while some are, it differs from that at active addresses only. */
  lemma {:induction false} MemoryRestored(mem: seq<Byte>, calls: seq<Call>)
    requires forall i :: 0 <= i < |calls| ==> calls[i].addr < |mem|
    ensures var t := Run(Fresh(mem), calls);
      && Underlying(t) == mem && (t.count == 0 ==> t.mem == mem)
      && (forall a: nat :: a < |mem| && t.mem[a] != mem[a] ==> Find(t.table, a, 0) >= 0)
  {
    var s := Fresh(mem);
    NoneActive(s.table);
    assert Inv(s);
    NothingPatched(s);
    RunKeeps(s, calls);
    var t := Run(s, calls);
    if t.count == 0 { NothingPatched(t); }
    assert forall a: nat :: a < |mem| ==> Underlying(t)[a] == Beneath(t, a);
  }

  function Lifts(order: seq<nat>): (calls: seq<Call>)
    ensures |calls| == |order| && forall i :: 0 <= i < |order| ==> calls[i] == Lift(order[i])
  {
    seq(|order|, i requires 0 <= i < |order| => Lift(order[i]))
  }

  /** Removing every active address, in any order, restores the memory beneath. */
  lemma {:induction false} RemovingAllRestores(s: Stub, order: seq<nat>)
    requires Inv(s) && forall i :: 0 <= i < |order| ==> order[i] < |s.mem|
    requires forall k :: 0 <= k < SLOTS && s.table[k].active ==> s.table[k].addr in order
    ensures Run(s, Lifts(order)).mem == Underlying(s) && Run(s, Lifts(order)).count == 0
    decreases |order|
  {
    if order == [] {
      NoneActive(s.table);
      NothingPatched(s);
    } else {
      var t := Remove(s, order[0]).0;
      RemoveKeeps(s, order[0]);
      Codes(s, order[0]);
      assert Lifts(order)[1..] == Lifts(order[1..]);
      forall k | 0 <= k < SLOTS && t.table[k].active ensures t.table[k].addr in order[1..] {
        assert s.table[k].active && s.table[k].addr == t.table[k].addr != order[0];
      }
      RemovingAllRestores(t, order[1..]);
    }
  }

  // ------------------------------------------------------------------ the stub

  class GdbStub {
    const mem: array<Byte>
    const table: array<Breakpoint>
    var count: int

    ghost function State(): Stub
      reads this, mem, table
    {
      Stub(mem[..], table[..], count)
    }

    constructor (memory: array<Byte>)
      ensures mem == memory && State() == Fresh(memory[..]) && fresh(table)
    {
      mem := memory;
      table := new Breakpoint[SLOTS](_ => Breakpoint(0, 0, false));
      count := 0;
    }

    /** `gdb_find_breakpoint`. */
    method FindSlot(addr: nat) returns (k: int)
      ensures k == Find(table[..], addr, 0)
    {
      k := 0;
      while k < table.Length
        invariant 0 <= k <= table.Length && Find(table[..], addr, k) == Find(table[..], addr, 0)
      {
        if table[k].active && table[k].addr == addr { return; }
        k := k + 1;
      }
      k := -1;
    }

    /** `gdb_set_breakpoint`; the source reads and patches whatever address it is given. */
    method SetBreakpoint(addr: nat) returns (code: int)
      requires addr < mem.Length
      modifies this, mem, table
      ensures (State(), code) == Set(old(State()), addr)
    {
      var found := FindSlot(addr);
      if found >= 0 { return 0; }
      var k := 0;
      while k < table.Length
        invariant 0 <= k <= table.Length && Free(table[..], k) == Free(table[..], 0)
        invariant State() == old(State())
      {
        if !table[k].active {
          table[k] := Breakpoint(addr, mem[addr], true);
          mem[addr] := TRAP;
          count := count + 1;
          return 0;
        }
        k := k + 1;
      }
      code := -1;
    }

    /** `gdb_remove_breakpoint`. */
    method RemoveBreakpoint(addr: nat) returns (code: int)
      requires addr < mem.Length
      modifies this, mem, table
      ensures (State(), code) == Remove(old(State()), addr)
    {
      var k := FindSlot(addr);
      if k < 0 { return -1; }
      mem[addr] := table[k].saved;
      table[k] := table[k].(active := false);
      count := count - 1;
      code := 0;
    }
  }
}
