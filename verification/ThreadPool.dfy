/**
 The work-stealing thread pool: `parallel_for` on the main thread and
 `worker_thread_entry` on every worker, as a transition system.

 Every access to a location that changes while threads run is one step, under sequential
 consistency, and a schedule is an arbitrary sequence of events.  A work descriptor lives on
 the stack of the call that created it: `frames` holds the descriptors whose call has not
 returned, and a thread that dereferences any other one goes to `Fault`.

 Reads of the descriptor's constant fields (`func`, `total_items`, `chunk_size`) are merged
 into the step next to them; in particular `Claim` reads the total together with the fetch-add
 although the code does so one statement later.  That loses no behaviour: between two steps of
 a worker that holds a descriptor, whatever else happens leaves the descriptor in place with
 those fields unchanged (`ThreadPoolResults.HeldDescriptorStays`).  The main thread uses its
 own copies of them, as the code does.
 */
module ThreadPool {
  import opened Common

  /** One `parallel_for` request.  Item `i` of the work function rewrites element
      `i` of the array behind `arg` to `func(i, old value)`; `input` is that array
      on entry, so its length is `total_items`. */
  datatype Call<!V> = Call(func: (nat, V) -> V, input: seq<V>, chunkSize: int, deterministic: bool)

  /** `parallel_work_t`. */
  datatype Frame<!V> = Frame(func: (nat, V) -> V, total: nat, chunk: int, next: int, completed: int)

  datatype WorkerPc =
    | Idle                                             // spinning until work_available
    | Recheck                                          // second look at work_available
    | Load                                             // reads current_work
    | Start(work: nat)                                 // tests chunk_size == -1
    | Claim(work: nat)                                 // fetch-add on next_item
    | Run(work: nat, start: int, end: int, item: int)  // inside func, about to do `item`
    | Commit(work: nat, start: int, end: int)          // fetch-add on completed
    | Ack(work: nat)                                   // increments workers_done
    | WaitClear(work: nat)                             // spinning until work_available is 0
    | Fault                                            // dereferenced a dead or null descriptor

  datatype MainPc =
    | Outside                              // not inside parallel_for
    | Solo(item: int)                      // single-threaded fallback
    | Reset                                // workers_done := 0
    | Publish                              // current_work := &work
    | Signal                               // work_available := 1
    | MClaim
    | MRun(start: int, end: int, item: int)
    | MCommit(start: int, end: int)
    | AwaitItems                           // spinning until completed >= total
    | AwaitWorkers                         // spinning until workers_done >= T - 1
    | ClearAvailable                       // work_available := 0
    | ClearWork                            // current_work := NULL, then return

  /** `hits[i]` counts how often item `i` of the latest call has been executed. */
  datatype State<!V> = State(
    workers: seq<WorkerPc>,
    main: MainPc,
    available: bool,
    current: Option<nat>,
    done: int,
    round: nat,
    frames: map<nat, Frame<V>>,
    call: Call<V>,
    out: seq<V>,
    hits: seq<nat>)
  {
    function Threads(): nat { |workers| + 1 }
  }

  datatype Event<!V> = WorkerStep(worker: nat) | MainStep | Begin(call: Call<V>)

  // ---------------------------------------------------------------- the program

  /** The fixed range of a thread in deterministic mode. */
  function RangeStart(thread: nat, total: nat, threads: nat): int
    requires threads > 0
  {
    thread * (total / threads) + (if thread < total % threads then thread else total % threads)
  }

  function RangeEnd(thread: nat, total: nat, threads: nat): int
    requires threads > 0
  {
    RangeStart(thread, total, threads) + total / threads + (if thread < total % threads then 1 else 0)
  }

  function ChunkOf<V>(c: Call<V>, threads: nat): int
    requires threads > 0
  {
    if c.deterministic then -1
    else if c.chunkSize > 0 then c.chunkSize
    else |c.input| / threads + 1
  }

  function Init<V>(threads: nat, idle: Call<V>): State<V>
    requires threads > 0 && idle.input == []
  {
    State(seq(threads - 1, _ => Idle), Outside, false, None, 0, 0, map[], idle, [], [])
  }

  /** Executes one item of the work function `func`. */
  function DoItem<V>(s: State<V>, func: (nat, V) -> V, item: int): State<V>
    requires 0 <= item < |s.out| == |s.hits|
  {
    s.(out := s.out[item := func(item, s.out[item])], hits := s.hits[item := s.hits[item] + 1])
  }

  function SetWorker<V>(s: State<V>, w: nat, pc: WorkerPc): State<V>
    requires w < |s.workers|
  {
    s.(workers := s.workers[w := pc])
  }

  function Min(a: int, b: int): int { if a < b then a else b }

  /** One step of worker `w`, whose thread id is `w + 1`. */
  function StepWorker<V>(s: State<V>, w: nat): State<V>
    requires w < |s.workers|
  {
    match s.workers[w]
    case Idle => if s.available then SetWorker(s, w, Recheck) else s
    case Recheck => SetWorker(s, w, if s.available then Load else Idle)
    case Load => SetWorker(s, w, if s.current.Some? then Start(s.current.value) else Idle)
    case Start(r) =>
      if r !in s.frames then SetWorker(s, w, Fault)
      else if s.frames[r].chunk == -1 then
        var a := RangeStart(w + 1, s.frames[r].total, s.Threads());
        SetWorker(s, w, Run(r, a, RangeEnd(w + 1, s.frames[r].total, s.Threads()), a))
      else SetWorker(s, w, Claim(r))
    case Claim(r) =>
      if r !in s.frames then SetWorker(s, w, Fault)
      else
        var f := s.frames[r];
        var s1 := s.(frames := s.frames[r := f.(next := f.next + f.chunk)]);
        if f.next >= f.total then SetWorker(s1, w, Ack(r))
        else SetWorker(s1, w, Run(r, f.next, Min(f.next + f.chunk, f.total), f.next))
    case Run(r, a, b, i) =>
      if r !in s.frames then SetWorker(s, w, Fault)
      else if i >= b then SetWorker(s, w, Commit(r, a, b))
      else if !(0 <= i < |s.out| == |s.hits|) then SetWorker(s, w, Fault)
      else SetWorker(DoItem(s, s.frames[r].func, i), w, Run(r, a, b, i + 1))
    case Commit(r, a, b) =>
      if r !in s.frames then SetWorker(s, w, Fault)
      else
        var f := s.frames[r];
        SetWorker(s.(frames := s.frames[r := f.(completed := f.completed + (b - a))]), w,
                  if f.chunk == -1 then Ack(r) else Claim(r))
    case Ack(r) => SetWorker(s.(done := s.done + 1), w, WaitClear(r))
    case WaitClear(r) => if s.available then s else SetWorker(s, w, Idle)
    case Fault => s
  }

  /** Entry of `parallel_for`. */
  function BeginCall<V>(s: State<V>, c: Call<V>): State<V>
    requires s.main == Outside
  {
    var s1 := s.(round := s.round + 1, call := c, out := c.input, hits := seq(|c.input|, _ => 0));
    if s.Threads() <= 1 then s1.(main := Solo(0))
    else s1.(main := Reset,
             frames := s.frames[s1.round := Frame(c.func, |c.input|, ChunkOf(c, s.Threads()), 0, 0)])
  }

  /** One step of the main thread inside `parallel_for`. */
  function StepMain<V>(s: State<V>): State<V>
  {
    match s.main
    case Outside => s
    case Solo(i) =>
      if 0 <= i < |s.out| == |s.hits| then DoItem(s, s.call.func, i).(main := Solo(i + 1)) else s.(main := Outside)
    case Reset => s.(done := 0, main := Publish)
    case Publish => s.(current := Some(s.round), main := Signal)
    case Signal =>
      if s.round !in s.frames then s
      else
        var f := s.frames[s.round];
        s.(available := true,
           main := if f.chunk == -1
                   then MRun(0, f.total / s.Threads() + (if f.total % s.Threads() > 0 then 1 else 0), 0)
                   else MClaim)
    case MClaim =>
      if s.round !in s.frames then s
      else
        var f := s.frames[s.round];
        s.(frames := s.frames[s.round := f.(next := f.next + f.chunk)],
           main := if f.next >= f.total then AwaitItems
                   else MRun(f.next, Min(f.next + f.chunk, f.total), f.next))
    case MRun(a, b, i) =>
      if i >= b then s.(main := MCommit(a, b))
      else if !(0 <= i < |s.out| == |s.hits|) then s
      else DoItem(s, s.call.func, i).(main := MRun(a, b, i + 1))
    case MCommit(a, b) =>
      if s.round !in s.frames then s
      else
        var f := s.frames[s.round];
        s.(frames := s.frames[s.round := f.(completed := f.completed + (b - a))],
           main := if f.chunk == -1 then AwaitItems else MClaim)
    case AwaitItems =>
      if s.round in s.frames && s.frames[s.round].completed >= s.frames[s.round].total
      then s.(main := AwaitWorkers) else s
    case AwaitWorkers => if s.done >= s.Threads() - 1 then s.(main := ClearAvailable) else s
    case ClearAvailable => s.(available := false, main := ClearWork)
    case ClearWork => s.(current := None, frames := s.frames - {s.round}, main := Outside)
  }

  /** Applies one event; events that name no enabled thread do nothing. */
  function Step<V>(s: State<V>, e: Event<V>): State<V>
  {
    match e
    case WorkerStep(w) => if w < |s.workers| then StepWorker(s, w) else s
    case MainStep => StepMain(s)
    case Begin(c) => if s.main == Outside then BeginCall(s, c) else s
  }

  function Exec<V>(s: State<V>, schedule: seq<Event<V>>): State<V>
    decreases |schedule|
  {
    if schedule == [] then s else Exec(Step(s, schedule[0]), schedule[1..])
  }
}
