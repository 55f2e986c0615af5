/**
 The model registry: eight slots, at most one of them active, and the statistics kept beside
 them. What the model parser and the allocator answer are parameters of a load.
 */
module ModelRegistry {
  import opened Common

  const SLOTS: nat := 8
  const NONE: int := -1
  const TWO64: nat := 0x1_0000_0000_0000_0000
  const DEFAULT_WORKSPACE: nat := 32 * 1024 * 1024

  datatype State = Free | Loading | Ready | Active | Unloading

  /** The two fields of a parsed model that the registry uses. */
  datatype Model = Model(size: nat, memoryRequired: nat)

  /** A slot; `workspace` is the size of its workspace when it owns one. */
  datatype Slot = Slot(state: State, model: Option<Model>, workspace: Option<nat>)

  /** `blocks` counts the heap blocks the registry owns: a model and a workspace each. */
  datatype Registry = Registry(
    initialized: bool, slots: seq<Slot>, active: int,
    loads: int, unloads: int, switches: int, count: int, memory: nat, blocks: int)

  const EMPTY: Slot := Slot(Free, None, None)

  /** The static initial value. */
  function Boot(): Registry { Registry(false, seq(SLOTS, _ => EMPTY), NONE, 0, 0, 0, 0, 0, 0) }

  // ------------------------------------------------------------------ the calls

  /** `model_registry_init`. */
  function Init(r: Registry): Registry {
    if r.initialized then r
    else Registry(true, seq(SLOTS, _ => EMPTY), NONE, 0, 0, 0, 0, 0, r.blocks)
  }

  /** The first slot from i on in a given state other than `except`, or NONE. */
  function First(slots: seq<Slot>, state: State, except: int, i: nat): (k: int)
    requires i <= |slots|
    ensures k == NONE || (i <= k < |slots| && slots[k].state == state && k != except)
    ensures forall j :: i <= j < |slots| && (k == NONE || j < k) ==> slots[j].state != state || j == except
    decreases |slots| - i
  {
    if i == |slots| then NONE
    else if slots[i].state == state && i != except then i
    else First(slots, state, except, i + 1)
  }

  function WorkspaceOf(m: Model): nat { if m.memoryRequired == 0 then DEFAULT_WORKSPACE else m.memoryRequired }

  /** `model_registry_switch`: the new state and the return code. */
  function Switch(r: Registry, id: int): (Registry, int)
    requires |r.slots| == SLOTS && NONE <= r.active < SLOTS
  {
    if !r.initialized then (r, -1)
    else if !(0 <= id < SLOTS) then (r, -5)
    else if !r.slots[id].state.Ready? && !r.slots[id].state.Active? then (r, -6)
    else if r.active == id then (r, 0)
    else
      var freed := if r.active == NONE then r.slots else r.slots[r.active := r.slots[r.active].(state := Ready)];
      (r.(slots := freed[id := freed[id].(state := Active)], active := id, switches := r.switches + 1), 0)
  }

  /** `model_registry_load`, given the parsed model, if any, and whether the workspace is granted. */
  function Load(r: Registry, parsed: Option<Model>, granted: bool): (Registry, int)
    requires |r.slots| == SLOTS && NONE <= r.active < SLOTS
  {
    var k := First(r.slots, Free, NONE, 0);
    if !r.initialized then (r, -1)
    else if k < 0 then (r, -2)
    else if parsed.None? then (r, -3)
    else if !granted then (r, -4)
    else
      var workspace := WorkspaceOf(parsed.value);
      var s := r.(slots := r.slots[k := Slot(Ready, parsed, Some(workspace))],
                  loads := r.loads + 1, count := r.count + 1,
                  memory := (r.memory + parsed.value.size + workspace) % TWO64, blocks := r.blocks + 2);
      (if s.count == 1 then Switch(s, k).0 else s, k)
  }

  /** The bytes a slot accounts for. */
  function Bytes(s: Slot): int {
    (if s.workspace.Some? then s.workspace.value else 0) + (if s.model.Some? then s.model.value.size else 0)
  }

  function Blocks(s: Slot): int { (if s.workspace.Some? then 1 else 0) + (if s.model.Some? then 1 else 0) }

  function Occupied(s: Slot): int { if s.state.Free? then 0 else 1 }

  /** A slot given up: its memory is returned and the statistics follow. */
  function Emptied(s: Registry, id: nat): Registry
    requires id < |s.slots|
  {
    s.(slots := s.slots[id := EMPTY], unloads := s.unloads + 1, count := s.count - 1,
       memory := (s.memory - Bytes(s.slots[id])) % TWO64, blocks := s.blocks - Blocks(s.slots[id]))
  }

  /** `model_registry_unload`: an active model first hands over to the lowest other ready one. */
  function Unload(r: Registry, id: int): (Registry, int)
    requires |r.slots| == SLOTS && NONE <= r.active < SLOTS
  {
    if !r.initialized then (r, -1)
    else if !(0 <= id < SLOTS) then (r, -5)
    else if r.slots[id].state.Free? then (r, -6)
    else
      var other := First(r.slots, Ready, id, 0);
      var s := if r.active != id then r else if other != NONE then Switch(r, other).0 else r.(active := NONE);
      (Emptied(s, id), 0)
  }

  /** The loop of `model_registry_shutdown` from slot i on. */
  function UnloadFrom(r: Registry, i: nat): (s: Registry)
    requires |r.slots| == SLOTS && NONE <= r.active < SLOTS && i <= SLOTS
    ensures |s.slots| == SLOTS && NONE <= s.active < SLOTS
    decreases SLOTS - i
  {
    if i == SLOTS then r
    else if r.slots[i].state.Free? then UnloadFrom(r, i + 1)
    else UnloadFrom(Unload(r, i).0, i + 1)
  }

  /** `model_registry_shutdown`. */
  function Shutdown(r: Registry): Registry
    requires |r.slots| == SLOTS && NONE <= r.active < SLOTS
  {
    if !r.initialized then r else UnloadFrom(r, 0).(initialized := false, active := NONE)
  }

  // ------------------------------------------------------------------ the invariant

  function Total(slots: seq<Slot>, weight: Slot -> int): int {
    if slots == [] then 0 else Total(slots[..|slots| - 1], weight) + weight(slots[|slots| - 1])
  }

  lemma {:induction false} TotalUpdate(slots: seq<Slot>, weight: Slot -> int, k: nat, s: Slot)
    requires k < |slots|
    ensures Total(slots[k := s], weight) == Total(slots, weight) + weight(s) - weight(slots[k])
  {
    var n := |slots| - 1;
    if k < n {
      TotalUpdate(slots[..n], weight, k, s);
      assert slots[k := s][..n] == slots[..n][k := s];
    } else {
      assert slots[k := s][..n] == slots[..n];
    }
  }

  lemma {:induction false} TotalZero(slots: seq<Slot>, weight: Slot -> int)
    requires forall i :: 0 <= i < |slots| ==> weight(slots[i]) == 0
    ensures Total(slots, weight) == 0
  {
    if slots != [] { TotalZero(slots[..|slots| - 1], weight); }
  }

  /** With no occupied slot the count is 0, and the other way round. */
  lemma {:induction false} CountZero(slots: seq<Slot>)
    ensures Total(slots, Occupied) >= 0
    ensures Total(slots, Occupied) == 0 <==> forall i :: 0 <= i < |slots| ==> slots[i].state.Free?
  {
    if slots != [] {
      var init := slots[..|slots| - 1];
      CountZero(init);
      assert forall i :: 0 <= i < |init| ==> init[i] == slots[i];
    }
  }

  /** Between calls a slot is free and empty, or loaded and complete. */
  predicate GoodSlot(s: Slot) {
    if s.state.Free? then s == EMPTY else (s.state.Ready? || s.state.Active?) && s.model.Some? && s.workspace.Some?
  }

  /** At most one slot is active and it is `active`; some slot is active exactly when any is loaded. */
  ghost predicate ActiveRight(r: Registry)
    requires |r.slots| == SLOTS
  {
    && NONE <= r.active < SLOTS
    && (forall i :: 0 <= i < SLOTS ==> (r.slots[i].state.Active? <==> i == r.active))
    && (r.active == NONE ==> forall i :: 0 <= i < SLOTS ==> r.slots[i].state.Free?)
  }

  /** The statistics agree with the slots: memory as a 64-bit sum, two heap blocks to a model. */
  ghost predicate StatsRight(r: Registry) {
    && r.count == r.loads - r.unloads == Total(r.slots, Occupied)
    && r.memory == Total(r.slots, Bytes) % TWO64
    && r.blocks == Total(r.slots, Blocks) == 2 * r.count
  }

  ghost predicate Inv(r: Registry) {
    && |r.slots| == SLOTS && (forall i :: 0 <= i < SLOTS ==> GoodSlot(r.slots[i]))
    && ActiveRight(r) && StatsRight(r)
    && (!r.initialized ==> r.active == NONE)
  }

  lemma EmptySlots(slots: seq<Slot>)
    requires forall i :: 0 <= i < |slots| ==> slots[i] == EMPTY
    ensures Total(slots, Occupied) == Total(slots, Bytes) == Total(slots, Blocks) == 0
  {
    TotalZero(slots, Occupied);
    TotalZero(slots, Bytes);
    TotalZero(slots, Blocks);
  }

  lemma BootInv()
    ensures Inv(Boot())
  {
    EmptySlots(Boot().slots);
  }

  lemma InitKeeps(r: Registry)
    requires Inv(r)
    ensures Inv(Init(r)) && Init(r).initialized && (r.initialized ==> Init(r) == r)
    ensures !r.initialized ==> Init(r).count == 0 && forall i :: 0 <= i < SLOTS ==> Init(r).slots[i] == EMPTY
  {
    if !r.initialized {
      EmptySlots(r.slots);
      EmptySlots(Init(r).slots);
    }
  }

  /** A change of state between ready and active moves no weight. */
  lemma Restate(slots: seq<Slot>, k: nat, state: State)
    requires k < |slots| && !slots[k].state.Free? && !state.Free?
    ensures var t := slots[k := slots[k].(state := state)];
      && Total(t, Occupied) == Total(slots, Occupied) && Total(t, Bytes) == Total(slots, Bytes)
      && Total(t, Blocks) == Total(slots, Blocks)
  {
    var s := slots[k].(state := state);
    TotalUpdate(slots, Occupied, k, s);
    TotalUpdate(slots, Bytes, k, s);
    TotalUpdate(slots, Blocks, k, s);
  }

  lemma SwitchStats(r: Registry, id: int)
    requires Inv(r)
    ensures StatsRight(Switch(r, id).0)
  {
    if Switch(r, id).0 != r {
      var freed := if r.active == NONE then r.slots else r.slots[r.active := r.slots[r.active].(state := Ready)];
      if r.active != NONE { Restate(r.slots, r.active, Ready); }
      Restate(freed, id, Active);
    }
  }

  lemma SwitchKeeps(r: Registry, id: int)
    requires Inv(r)
    ensures Inv(Switch(r, id).0)
    ensures Switch(r, id).1 == 0 <==> r.initialized && 0 <= id < SLOTS && !r.slots[id].state.Free?
    ensures Switch(r, id).1 != 0 ==> Switch(r, id).0 == r
    ensures var s := Switch(r, id).0;
      Switch(r, id).1 == 0 ==>
        && s.active == id && s.slots[id].state.Active?
        && (forall i :: 0 <= i < SLOTS && i != id && !r.slots[i].state.Free? ==> s.slots[i].state.Ready?)
        && s.switches == r.switches + if r.active == id then 0 else 1
  {
    hide StatsRight;
    SwitchStats(r, id);
  }

  /** A slot filled or emptied: the three sums move by what it holds. */
  lemma Refill(slots: seq<Slot>, k: nat, s: Slot)
    requires k < |slots|
    ensures Total(slots[k := s], Occupied) == Total(slots, Occupied) + Occupied(s) - Occupied(slots[k])
    ensures Total(slots[k := s], Bytes) == Total(slots, Bytes) + Bytes(s) - Bytes(slots[k])
    ensures Total(slots[k := s], Blocks) == Total(slots, Blocks) + Blocks(s) - Blocks(slots[k])
  {
    TotalUpdate(slots, Occupied, k, s);
    TotalUpdate(slots, Bytes, k, s);
    TotalUpdate(slots, Blocks, k, s);
  }

  lemma WrapSum(x: int, y: int)
    ensures (x % TWO64 + y) % TWO64 == (x + y) % TWO64 && (x % TWO64 - y) % TWO64 == (x - y) % TWO64
  {
  }

  /** A slot that has just been filled counts, before anything is activated. */
  lemma LoadStats(r: Registry, k: nat, m: Model)
    requires Inv(r) && k < SLOTS && r.slots[k].state.Free?
    ensures var s := r.(slots := r.slots[k := Slot(Ready, Some(m), Some(WorkspaceOf(m)))],
                        loads := r.loads + 1, count := r.count + 1,
                        memory := (r.memory + m.size + WorkspaceOf(m)) % TWO64, blocks := r.blocks + 2);
            StatsRight(s)
  {
    Refill(r.slots, k, Slot(Ready, Some(m), Some(WorkspaceOf(m))));
    WrapSum(Total(r.slots, Bytes), m.size + WorkspaceOf(m));
  }

  /** The count is 0 exactly when nothing is active. */
  lemma IdleIff(r: Registry)
    requires Inv(r)
    ensures r.count == 0 <==> r.active == NONE
  {
    CountZero(r.slots);
    if r.active != NONE { assert r.slots[r.active].state.Active?; }
  }

  lemma LoadKeeps(r: Registry, parsed: Option<Model>, granted: bool)
    requires Inv(r)
    ensures Inv(Load(r, parsed, granted).0)
  {
    hide Switch, WorkspaceOf;
    var k := First(r.slots, Free, NONE, 0);
    if r.initialized && k >= 0 && parsed.Some? && granted {
      LoadStats(r, k, parsed.value);
      IdleIff(r);
      var s := r.(slots := r.slots[k := Slot(Ready, parsed, Some(WorkspaceOf(parsed.value)))], loads := r.loads + 1,
                  count := r.count + 1, memory := (r.memory + parsed.value.size + WorkspaceOf(parsed.value)) % TWO64,
                  blocks := r.blocks + 2);
      if s.count == 1 { FirstActivation(s, k); }
    }
  }

  /** The switch that follows the first load. */
  lemma FirstActivation(s: Registry, k: nat)
    requires |s.slots| == SLOTS && k < SLOTS && s.slots[k].state.Ready? && GoodSlot(s.slots[k])
    requires forall i :: 0 <= i < SLOTS && i != k ==> s.slots[i] == EMPTY
    requires s.initialized && s.active == NONE && StatsRight(s)
    ensures Inv(Switch(s, k).0)
  {
    Restate(s.slots, k, Active);
  }

  /** Emptying a loaded slot that is not the active one, or the last one loaded. */
  lemma EmptyKeeps(s: Registry, id: nat)
    requires |s.slots| == SLOTS && id < SLOTS && !s.slots[id].state.Free?
    requires forall i :: 0 <= i < SLOTS ==> GoodSlot(s.slots[i])
    requires StatsRight(s)
    ensures StatsRight(Emptied(s, id))
  {
    Refill(s.slots, id, EMPTY);
    WrapSum(Total(s.slots, Bytes), Bytes(s.slots[id]));
  }

  lemma UnloadKeeps(r: Registry, id: int)
    requires Inv(r)
    ensures Inv(Unload(r, id).0)
    ensures Unload(r, id).1 == 0 <==> r.initialized && 0 <= id < SLOTS && !r.slots[id].state.Free?
    ensures Unload(r, id).1 != 0 ==> Unload(r, id).0 == r
    ensures Unload(r, id).1 == 0 ==> Unload(r, id).0.slots[id] == EMPTY && r.slots[id].model.Some?
    ensures Unload(r, id).1 == 0 && r.slots[id].workspace.Some? ==>
      Unload(r, id).0.memory == (r.memory - r.slots[id].workspace.value - r.slots[id].model.value.size) % TWO64
  {
    if Unload(r, id).1 == 0 {
      var other := First(r.slots, Ready, id, 0);
      var s := if r.active != id then r else if other != NONE then Switch(r, other).0 else r.(active := NONE);
      if r.active == id && other != NONE { SwitchKeeps(r, other); }
      EmptyKeeps(s, id);
    }
  }

  /** After the shutdown loop every slot is free. */
  lemma {:induction false} UnloadFromKeeps(r: Registry, i: nat)
    requires Inv(r) && r.initialized && i <= SLOTS && forall j :: 0 <= j < i ==> r.slots[j].state.Free?
    ensures var s := UnloadFrom(r, i); Inv(s) && forall j :: 0 <= j < SLOTS ==> s.slots[j].state.Free?
    decreases SLOTS - i
  {
    hide StatsRight, Unload;
    if i < SLOTS {
      if r.slots[i].state.Free? {
        UnloadFromKeeps(r, i + 1);
      } else {
        UnloadKeeps(r, i);
        UnloadFrees(r, i);
        UnloadFromKeeps(Unload(r, i).0, i + 1);
      }
    }
  }

  lemma UnloadFrees(r: Registry, id: nat)
    requires Inv(r) && r.initialized && id < SLOTS && !r.slots[id].state.Free?
    ensures Unload(r, id).1 == 0 && Unload(r, id).0.initialized && |Unload(r, id).0.slots| == SLOTS
    ensures forall j :: 0 <= j < SLOTS && r.slots[j].state.Free? ==> Unload(r, id).0.slots[j].state.Free?
    ensures Unload(r, id).0.slots[id].state.Free?
  {
  }

  lemma ShutdownKeeps(r: Registry)
    requires Inv(r)
    ensures Inv(Shutdown(r)) && !Shutdown(r).initialized
    ensures forall i :: 0 <= i < SLOTS ==> Shutdown(r).slots[i] == EMPTY
  {
    if r.initialized { UnloadFromKeeps(r, 0); }
  }

  // ------------------------------------------------------------------ runs

  datatype Call =
    | DoInit
    | DoLoad(parsed: Option<Model>, granted: bool)
    | DoSwitch(id: int)
    | DoUnload(id: int)
    | DoShutdown

  function Step(r: Registry, c: Call): Registry
    requires |r.slots| == SLOTS && NONE <= r.active < SLOTS
  {
    match c
    case DoInit => Init(r)
    case DoLoad(parsed, granted) => Load(r, parsed, granted).0
    case DoSwitch(id) => Switch(r, id).0
    case DoUnload(id) => Unload(r, id).0
    case DoShutdown => Shutdown(r)
  }

  lemma StepKeeps(r: Registry, c: Call)
    requires Inv(r)
    ensures Inv(Step(r, c))
  {
    hide Init, Load, Switch, Unload, Shutdown;
    match c
    case DoInit => InitKeeps(r);
    case DoLoad(parsed, granted) => LoadKeeps(r, parsed, granted);
    case DoSwitch(id) => SwitchKeeps(r, id);
    case DoUnload(id) => UnloadKeeps(r, id);
    case DoShutdown => ShutdownKeeps(r);
  }

  /** The state after a sequence of calls. */
  ghost function Run(r: Registry, calls: seq<Call>): (s: Registry)
    requires Inv(r)
    ensures Inv(s)
    decreases |calls|
  {
    if calls == [] then r
    else
      StepKeeps(r, calls[0]);
      Run(Step(r, calls[0]), calls[1..])
  }

  /** After every sequence of calls from power-on: at most one slot is active and it is the active
      id; some slot is active exactly when any is loaded; the current count is loads minus unloads
      and the number of loaded slots; the memory is the sum over them; two heap blocks each. */
  lemma {:induction false} RunInvariant(calls: seq<Call>)
    ensures Inv(Boot())
    ensures var r := Run(Boot(), calls);
      && |r.slots| == SLOTS
      && (forall i, j :: 0 <= i < j < SLOTS ==> !(r.slots[i].state.Active? && r.slots[j].state.Active?))
      && (forall i :: 0 <= i < SLOTS ==> (r.slots[i].state.Active? <==> i == r.active))
      && ((exists i :: 0 <= i < SLOTS && r.slots[i].state.Active?)
          <==> exists i :: 0 <= i < SLOTS && !r.slots[i].state.Free?)
      && r.count == r.loads - r.unloads == Total(r.slots, Occupied) && r.memory == Total(r.slots, Bytes) % TWO64
      && r.blocks == 2 * r.count
  {
    BootInv();
    hide Inv, ActiveRight, StatsRight;
    InvMeans(Run(Boot(), calls));
  }

  lemma InvMeans(r: Registry)
    requires Inv(r)
    ensures |r.slots| == SLOTS
    ensures forall i, j :: 0 <= i < j < SLOTS ==> !(r.slots[i].state.Active? && r.slots[j].state.Active?)
    ensures forall i :: 0 <= i < SLOTS ==> (r.slots[i].state.Active? <==> i == r.active)
    ensures (exists i :: 0 <= i < SLOTS && r.slots[i].state.Active?)
      <==> exists i :: 0 <= i < SLOTS && !r.slots[i].state.Free?
    ensures r.count == r.loads - r.unloads == Total(r.slots, Occupied) && r.memory == Total(r.slots, Bytes) % TWO64
    ensures r.blocks == 2 * r.count
  {
    if r.active != NONE { assert r.slots[r.active].state.Active?; }
  }

  /** A loaded model stays in its slot, with its workspace, until that slot is unloaded or the
      registry is shut down, whatever else is loaded, switched or unloaded. */
  lemma {:induction false} Undisturbed(r: Registry, calls: seq<Call>, id: nat)
    requires Inv(r) && r.initialized && id < SLOTS && !r.slots[id].state.Free?
    requires forall i :: 0 <= i < |calls| ==> calls[i] != DoUnload(id) && calls[i] != DoShutdown
    ensures var s := Run(r, calls);
      && !s.slots[id].state.Free? && s.slots[id].model == r.slots[id].model
      && s.slots[id].workspace == r.slots[id].workspace
    decreases |calls|
  {
    if calls != [] {
      StepKeeps(r, calls[0]);
      StepLeavesAlone(r, calls[0], id);
      Undisturbed(Step(r, calls[0]), calls[1..], id);
    }
  }

  lemma StepLeavesAlone(r: Registry, c: Call, id: nat)
    requires Inv(r) && r.initialized && id < SLOTS && !r.slots[id].state.Free? && c != DoUnload(id) && c != DoShutdown
    ensures Inv(Step(r, c)) && Step(r, c).initialized && Holds(r, Step(r, c), id)
  {
    StepKeeps(r, c);
    hide Inv, Holds, Load, Switch, Unload;
    match c
    case DoInit => InitLeavesAlone(r, id);
    case DoLoad(parsed, granted) => LoadLeavesAlone(r, parsed, granted, id);
    case DoSwitch(other) => SwitchLeavesAlone(r, other, id);
    case DoUnload(other) => UnloadLeavesAlone(r, other, id);
  }

  /** The slot holds the same model and workspace as before. */
  predicate Holds(r: Registry, s: Registry, id: nat) {
    && id < |r.slots| == |s.slots| && !s.slots[id].state.Free?
    && s.slots[id].model == r.slots[id].model && s.slots[id].workspace == r.slots[id].workspace
  }

  lemma InitLeavesAlone(r: Registry, id: nat)
    requires Inv(r) && r.initialized && id < SLOTS && !r.slots[id].state.Free?
    ensures Init(r).initialized && Holds(r, Init(r), id)
  {
  }

  lemma LoadLeavesAlone(r: Registry, parsed: Option<Model>, granted: bool, id: nat)
    requires Inv(r) && r.initialized && id < SLOTS && !r.slots[id].state.Free?
    ensures Load(r, parsed, granted).0.initialized && Holds(r, Load(r, parsed, granted).0, id)
  {
  }

  lemma SwitchLeavesAlone(r: Registry, other: int, id: nat)
    requires Inv(r) && r.initialized && id < SLOTS && !r.slots[id].state.Free?
    ensures Switch(r, other).0.initialized && Holds(r, Switch(r, other).0, id)
  {
  }

  lemma UnloadLeavesAlone(r: Registry, other: int, id: nat)
    requires Inv(r) && r.initialized && id < SLOTS && !r.slots[id].state.Free? && other != id
    ensures Unload(r, other).0.initialized && Holds(r, Unload(r, other).0, id)
  {
  }

  /** Unloading the active model activates the lowest-numbered other loaded one, if there is one. */
  lemma UnloadHandsOver(r: Registry, id: nat)
    requires Inv(r) && r.initialized && id < SLOTS && r.active == id
    ensures var s := Unload(r, id).0;
      && Unload(r, id).1 == 0 && |s.slots| == SLOTS && s.slots[id].state.Free?
      && (s.active == NONE <==> forall i :: 0 <= i < SLOTS && i != id ==> r.slots[i].state.Free?)
      && (s.active != NONE ==> 0 <= s.active < SLOTS && s.active != id && s.slots[s.active].state.Active?)
      && (s.active != NONE ==> forall i :: 0 <= i < s.active && i != id ==> r.slots[i].state.Free?)
  {
  }

  /** A load succeeds exactly when the registry is up, a slot is free, the data parses and the
      workspace is granted; it fills the lowest free slot and activates it exactly if it is the
      only one. Its workspace has the size the model asks for, or 32 MB where it asks for none. A load
      that fails changes nothing. */
  lemma LoadOutcome(r: Registry, parsed: Option<Model>, granted: bool)
    requires Inv(r)
    ensures var (s, code) := Load(r, parsed, granted);
      && (code >= 0 <==> r.initialized && r.count < SLOTS && parsed.Some? && granted)
      && (code < 0 ==> s == r)
      && (code >= 0 ==> code < SLOTS && |s.slots| == SLOTS)
      && (code >= 0 ==> r.slots[code].state.Free? && s.slots[code].model == parsed)
      && (code >= 0 ==> forall i :: 0 <= i < code ==> !r.slots[i].state.Free?)
      && (code >= 0 ==> (s.active == code <==> r.count == 0) && (r.count > 0 ==> s.active == r.active))
      && (code >= 0 ==>
            var bytes := if parsed.value.memoryRequired == 0 then 33554432 else parsed.value.memoryRequired;
            && s.slots[code].workspace == Some(bytes) && s.memory == (r.memory + parsed.value.size + bytes) % TWO64
            && s.loads == r.loads + 1 && s.count == r.count + 1)
  {
    CountZero(r.slots);
    CountFull(r.slots);
  }

  lemma {:induction false} CountFull(slots: seq<Slot>)
    ensures Total(slots, Occupied) <= |slots|
    ensures Total(slots, Occupied) == |slots| <==> forall i :: 0 <= i < |slots| ==> !slots[i].state.Free?
  {
    if slots != [] {
      var init := slots[..|slots| - 1];
      CountFull(init);
      assert forall i :: 0 <= i < |init| ==> init[i] == slots[i];
    }
  }

  // ------------------------------------------------------------------ the registry

  class Manager {
    const slots: array<Slot>
    var initialized: bool
    var active: int
    var loads: int
    var unloads: int
    var switches: int
    var count: int
    var memory: nat
    var blocks: int

    ghost function State(): Registry
      reads this, slots
    {
      Registry(initialized, slots[..], active, loads, unloads, switches, count, memory, blocks)
    }

    ghost predicate Valid()
      reads this, slots
    {
      slots.Length == SLOTS && NONE <= active < SLOTS
    }

    constructor ()
      ensures Valid() && State() == Boot() && fresh(slots)
    {
      slots := new Slot[SLOTS](_ => EMPTY);
      initialized, active := false, NONE;
      loads, unloads, switches, count, memory, blocks := 0, 0, 0, 0, 0, 0;
    }

    /** `model_registry_init`. */
    method Initialize() returns (code: int)
      requires Valid()
      modifies this, slots
      ensures Valid() && State() == Init(old(State())) && code == 0
    {
      if initialized { return 0; }
      for i := 0 to SLOTS
        invariant slots[..i] == seq(i, _ => EMPTY) && blocks == old(blocks)
      {
        slots[i] := EMPTY;
      }
      assert slots[..] == slots[..SLOTS] == Init(old(State())).slots;
      loads, unloads, switches, count, memory := 0, 0, 0, 0, 0;
      active := NONE;
      initialized := true;
      code := 0;
    }

    /** `find_free_slot`, and the search for a slot to hand over to. */
    method FirstSlot(state: State, except: int) returns (k: int)
      requires Valid()
      ensures k == First(slots[..], state, except, 0)
    {
      k := 0;
      while k < SLOTS
        invariant 0 <= k <= SLOTS && First(slots[..], state, except, k) == First(slots[..], state, except, 0)
      {
        if slots[k].state == state && k != except { return; }
        k := k + 1;
      }
      k := NONE;
    }

    /** `model_registry_switch`. */
    method SwitchTo(id: int) returns (code: int)
      requires Valid()
      modifies this, slots
      ensures Valid() && (State(), code) == Switch(old(State()), id)
    {
      if !initialized { return -1; }
      if !(0 <= id < SLOTS) { return -5; }
      if !slots[id].state.Ready? && !slots[id].state.Active? { return -6; }
      if active == id { return 0; }
      if active != NONE { slots[active] := slots[active].(state := Ready); }
      slots[id] := slots[id].(state := Active);
      active := id;
      switches := switches + 1;
      code := 0;
    }

    /** `model_registry_load`; `parsed` and `granted` are the answers of the parser and the allocator. */
    method LoadModel(parsed: Option<Model>, granted: bool) returns (code: int)
      requires Valid() && Inv(State())
      modifies this, slots
      ensures Valid() && (State(), code) == Load(old(State()), parsed, granted)
    {
      hide Inv;
      if !initialized { return -1; }
      var k := FirstSlot(Free, NONE);
      if k < 0 { return -2; }
      FreeIsEmpty(State(), k);
      slots[k] := slots[k].(state := Loading);
      if parsed.None? {
        slots[k] := slots[k].(state := Free);
        assert slots[..] == old(slots[..]);
        return -3;
      }
      blocks := blocks + 1;
      var workspace := WorkspaceOf(parsed.value);
      if !granted {
        blocks := blocks - 1;
        slots[k] := slots[k].(state := Free);
        assert slots[..] == old(slots[..]);
        return -4;
      }
      blocks := blocks + 1;
      slots[k] := slots[k].(model := parsed, workspace := Some(workspace), state := Ready);
      loads := loads + 1;
      count := count + 1;
      memory := (memory + parsed.value.size + workspace) % TWO64;
      assert slots[..] == old(slots[..])[k := Slot(Ready, parsed, Some(workspace))];
      if count == 1 { var _ := SwitchTo(k); }
      code := k;
    }

    lemma FreeIsEmpty(r: Registry, k: nat)
      requires Inv(r) && k < SLOTS && r.slots[k].state.Free?
      ensures r.slots[k] == EMPTY
    {
    }

    /** `model_registry_unload`. */
    method UnloadModel(id: int) returns (code: int)
      requires Valid()
      modifies this, slots
      ensures Valid() && (State(), code) == Unload(old(State()), id)
    {
      hide Switch, Emptied;
      if !initialized { return -1; }
      if !(0 <= id < SLOTS) { return -5; }
      if slots[id].state.Free? { return -6; }
      if active == id {
        var other := FirstSlot(Ready, id);
        if other != NONE { var _ := SwitchTo(other); } else { active := NONE; }
      }
      GiveUp(id);
      code := 0;
    }

    /** Freeing a slot's blocks and accounting for them. */
    method GiveUp(id: nat)
      requires Valid() && id < SLOTS
      modifies this, slots
      ensures Valid() && State() == Emptied(old(State()), id)
    {
      slots[id] := slots[id].(state := Unloading);
      var freed := Bytes(slots[id]);
      if slots[id].workspace.Some? {
        blocks := blocks - 1;
        slots[id] := slots[id].(workspace := None);
      }
      if slots[id].model.Some? {
        blocks := blocks - 1;
        slots[id] := slots[id].(model := None);
      }
      slots[id] := slots[id].(state := Free);
      unloads := unloads + 1;
      count := count - 1;
      memory := (memory - freed) % TWO64;
      assert slots[..] == old(slots[..])[id := EMPTY];
    }

    /** `model_registry_shutdown`. */
    method ShutDown()
      requires Valid()
      modifies this, slots
      ensures Valid() && State() == Shutdown(old(State()))
    {
      hide Unload;
      if !initialized { return; }
      var i := 0;
      while i < SLOTS
        invariant i <= SLOTS && Valid() && UnloadFrom(State(), i) == UnloadFrom(old(State()), 0)
      {
        if !slots[i].state.Free? { var _ := UnloadModel(i); }
        i := i + 1;
      }
      initialized := false;
      active := NONE;
    }
  }
}
