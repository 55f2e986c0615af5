/**
 What a caller of the thread pool may rely on, for every thread count, every
 schedule and any number of successive calls.
 */
module ThreadPoolResults {
  import opened Common
  import opened Sums
  import opened ThreadPool
  import opened ThreadPoolSafety

  /** Every state that some schedule reaches satisfies the invariant. */
  lemma ReachableInv<V>(threads: nat, idle: Call<V>, schedule: seq<Event<V>>)
    requires threads > 0 && idle.input == []
    ensures Inv(Exec(Init(threads, idle), schedule))
    ensures Exec(Init(threads, idle), schedule).Threads() == threads
  {
    InitInv(threads, idle);
    ExecKeepsInv(Init(threads, idle), schedule);
  }

  /** When no call is in progress, the latest call executed each of its items exactly
      once, and the array it worked on is the one a sequential pass would leave. */
  lemma ExactlyOnce<V>(threads: nat, idle: Call<V>, schedule: seq<Event<V>>)
    requires threads > 0 && idle.input == []
    ensures var s := Exec(Init(threads, idle), schedule);
            s.main.Outside? ==>
              && |s.out| == |s.hits| == |s.call.input|
              && (forall i: nat :: i < |s.hits| ==> s.hits[i] == 1)
              && (forall i: nat :: i < |s.out| ==> s.out[i] == s.call.func(i, s.call.input[i]))
  {
    ReachableInv(threads, idle, schedule);
    var s := Exec(Init(threads, idle), schedule);
    if s.main.Outside? {
      forall i: nat | i < |s.hits| ensures s.hits[i] == 1 && s.out[i] == s.call.func(i, s.call.input[i]) {
        assert ItemOk(s, i) && ValueOk(s, i);
      }
    }
  }

  /** Two schedules, on pools of any two sizes and in either mode, leave the same array. */
  lemma ScheduleIndependence<V>(threads1: nat, schedule1: seq<Event<V>>, threads2: nat, schedule2: seq<Event<V>>,
      idle: Call<V>)
    requires threads1 > 0 && threads2 > 0 && idle.input == []
    ensures var s1 := Exec(Init(threads1, idle), schedule1);
            var s2 := Exec(Init(threads2, idle), schedule2);
            (s1.main.Outside? && s2.main.Outside? && s1.call.func == s2.call.func && s1.call.input == s2.call.input)
            ==> s1.out == s2.out
  {
    ExactlyOnce(threads1, idle, schedule1);
    ExactlyOnce(threads2, idle, schedule2);
  }

  /** While a round is open, `completed` is `total_items` less what is unclaimed and what
      claimed chunks have not been added yet; when it reads `total_items`, every item has run. */
  lemma CompletedIsExact<V>(threads: nat, idle: Call<V>, schedule: seq<Event<V>>)
    requires threads > 0 && idle.input == []
    ensures var s := Exec(Init(threads, idle), schedule);
            Open(s.main) ==>
              && s.round in s.frames && |s.hits| == |s.call.input|
              && s.frames[s.round].completed
                 == |s.call.input| - UnclaimedCount(s) - MainUncommitted(s) - UncommittedByWorkers(s)
              && s.frames[s.round].completed <= |s.call.input|
              && (s.frames[s.round].completed >= |s.call.input| ==> forall i: nat :: i < |s.hits| ==> s.hits[i] == 1)
  {
    ReachableInv(threads, idle, schedule);
    var s := Exec(Init(threads, idle), schedule);
    if Open(s.main) { CompletedMeansExecuted(s); }
  }

  lemma CompletedMeansExecuted<V>(s: State<V>)
    requires Inv(s) && Open(s.main)
    ensures s.frames[s.round].completed <= |s.call.input|
    ensures s.frames[s.round].completed >= |s.call.input| ==> forall i: nat :: i < |s.hits| ==> s.hits[i] == 1
  {
    var n := |s.workers|;
    forall w: nat | w < n ensures 0 <= Uncommitted(s, w) {
      assert WorkerOk(s, w);
      RangeWithin(w + 1, |s.call.input|, s.Threads());
    }
    SumBounds((w: nat) => Uncommitted(s, w), n, 0, Max((w: nat) => Uncommitted(s, w), n));
    if s.frames[s.round].completed >= |s.call.input| {
      forall i: nat | i < |s.hits| ensures s.hits[i] == 1 {
        forall w: nat | w < n ensures Owes(s, w, i) == 0 {
          assert WorkerOk(s, w);
          SumAtLeast((v: nat) => Uncommitted(s, v), n, w);
        }
        SumBounds((w: nat) => Owes(s, w, i), n, 0, 0);
        assert ItemOk(s, i);
      }
    }
  }

  // ---------------------------------------------------------------- round isolation

  /** The descriptor a worker holds between reading `current_work` and acknowledging. */
  function Held(pc: WorkerPc): Option<nat>
  {
    match pc
    case Start(r) => Some(r)
    case Claim(r) => Some(r)
    case Run(r, _, _, _) => Some(r)
    case Commit(r, _, _) => Some(r)
    case _ => None
  }

  /** The fields of a descriptor that nothing writes once it is published. */
  ghost predicate SameConstants<V>(f: Frame<V>, g: Frame<V>) {
    f.func == g.func && f.total == g.total && f.chunk == g.chunk
  }

  /** While a worker that holds a descriptor does not move, the descriptor stays in place and keeps its
      work function, total and chunk size, whatever the other threads do. */
  lemma {:induction false} HeldDescriptorStays<V>(s: State<V>, schedule: seq<Event<V>>, w: nat, r: nat)
    requires Inv(s) && w < |s.workers| && Held(s.workers[w]) == Some(r)
    requires forall k: nat :: k < |schedule| ==> schedule[k] != WorkerStep(w)
    ensures var t := Exec(s, schedule);
      && w < |t.workers| && t.workers[w] == s.workers[w] && t.call == s.call
      && r in s.frames && r in t.frames && SameConstants(s.frames[r], t.frames[r])
    decreases |schedule|
  {
    hide Inv, Step, Held;
    if schedule == [] {
      HeldIsLive(s, w, r);
    } else {
      var e := schedule[0];
      StepKeepsInv(s, e);
      HeldStep(s, e, w, r);
      HeldDescriptorStays(Step(s, e), schedule[1..], w, r);
    }
  }

  lemma HeldIsLive<V>(s: State<V>, w: nat, r: nat)
    requires Inv(s) && w < |s.workers| && Held(s.workers[w]) == Some(r)
    ensures r == s.round && r in s.frames && s.frames[r].func == s.call.func
    ensures Open(s.main) && !s.main.ClearAvailable?
  {
    hide ItemsOk, CompletedOk, CounterOk;
    assert WorkerOk(s, w);
  }

  lemma HeldStep<V>(s: State<V>, e: Event<V>, w: nat, r: nat)
    requires Inv(s) && w < |s.workers| && Held(s.workers[w]) == Some(r) && e != WorkerStep(w)
    ensures var t := Step(s, e);
      && w < |t.workers| && t.workers[w] == s.workers[w] && t.call == s.call
      && r in s.frames && r in t.frames && SameConstants(s.frames[r], t.frames[r])
  {
    HeldIsLive(s, w, r);
    hide Inv;
    match e
    case WorkerStep(v) => if v < |s.workers| { WorkerKeepsConstants(s, v, r); }
    case MainStep => MainKeepsConstants(s, r);
    case Begin(_) =>
  }

  lemma WorkerKeepsConstants<V>(s: State<V>, v: nat, r: nat)
    requires v < |s.workers| && r in s.frames
    ensures var t := StepWorker(s, v);
      && |t.workers| == |s.workers| && t.workers == s.workers[v := t.workers[v]] && t.call == s.call
      && r in t.frames && SameConstants(s.frames[r], t.frames[r])
  {
    OnlyWorkerMoves(s, v);
    WorkerWritesCounters(s, v, r);
    hide StepWorker;
  }

  lemma WorkerWritesCounters<V>(s: State<V>, v: nat, r: nat)
    requires v < |s.workers| && r in s.frames
    ensures var t := StepWorker(s, v); r in t.frames && SameConstants(s.frames[r], t.frames[r])
  {
    hide RangeStart, RangeEnd, Min;
  }

  lemma MainKeepsConstants<V>(s: State<V>, r: nat)
    requires r in s.frames && !s.main.ClearWork?
    ensures var t := StepMain(s);
      t.workers == s.workers && t.call == s.call && r in t.frames && SameConstants(s.frames[r], t.frames[r])
  {
    hide Min;
  }

  /** No worker ever holds a descriptor whose call has returned, dereferences a dead one,
      or finds `current_work` null after seeing `work_available` set. */
  lemma RoundIsolation<V>(threads: nat, idle: Call<V>, schedule: seq<Event<V>>, w: nat)
    requires threads > 0 && idle.input == []
    requires w < |Exec(Init(threads, idle), schedule).workers|
    ensures var s := Exec(Init(threads, idle), schedule);
            && !s.workers[w].Fault?
            && (Held(s.workers[w]).Some? ==>
                  Held(s.workers[w]).value == s.round && s.round in s.frames && !s.main.Outside? && s.available)
            && (s.workers[w].Load? ==> s.current == Some(s.round) && s.round in s.frames)
  {
    ReachableInv(threads, idle, schedule);
    assert WorkerOk(Exec(Init(threads, idle), schedule), w);
  }

  /** How often worker `w` acknowledges round `r` along a schedule. */
  function AckCount<V>(s: State<V>, schedule: seq<Event<V>>, w: nat, r: nat): nat
    decreases |schedule|
  {
    if schedule == [] then 0
    else
      (if schedule[0] == WorkerStep(w) && w < |s.workers| && s.workers[w] == Ack(r) then 1 else 0)
      + AckCount(Step(s, schedule[0]), schedule[1..], w, r)
  }

  /** Worker `w` can no longer acknowledge round `r`. */
  ghost predicate Spent<V>(s: State<V>, w: nat, r: nat)
  {
    w < |s.workers| &&
    (s.round > r || (s.round == r && (s.workers[w] == WaitClear(r) || s.main.ClearWork? || s.main.Outside?)))
  }

  lemma SpentIsStable<V>(s: State<V>, e: Event<V>, w: nat, r: nat)
    requires Inv(s) && Spent(s, w, r)
    ensures Spent(Step(s, e), w, r)
    ensures s.workers[w] != Ack(r)
  {
    assert WorkerOk(s, w);
    match e
    case WorkerStep(v) => if v < |s.workers| { SpentAfterWorker(s, v, w, r); }
    case MainStep => hide Inv;
    case Begin(_) =>
  }

  lemma SpentAfterWorker<V>(s: State<V>, v: nat, w: nat, r: nat)
    requires Inv(s) && Spent(s, w, r) && v < |s.workers|
    ensures Spent(StepWorker(s, v), w, r)
  {
    hide ItemsOk, CompletedOk, CounterOk, DoneOk, RangeStart, RangeEnd;
    OnlyWorkerMoves(s, v);
    if v == w && s.workers[w] == WaitClear(r) {
      assert WorkerOk(s, w);
      assert s.available ==> StepWorker(s, w) == s;
    } else {
      hide StepWorker, Inv;
    }
  }

  lemma {:induction false} AcksBounded<V>(s: State<V>, schedule: seq<Event<V>>, w: nat, r: nat)
    requires Inv(s)
    ensures AckCount(s, schedule, w, r) <= if Spent(s, w, r) then 0 else 1
    decreases |schedule|
  {
    if schedule != [] {
      var e := schedule[0];
      StepKeepsInv(s, e);
      AcksBounded(Step(s, e), schedule[1..], w, r);
      if Spent(s, w, r) {
        SpentIsStable(s, e, w, r);
      } else if w < |s.workers| && s.workers[w] == Ack(r) {
        assert WorkerOk(s, w);
      }
    }
  }

  /** Each worker acknowledges each round at most once. */
  lemma AtMostOneAck<V>(threads: nat, idle: Call<V>, schedule: seq<Event<V>>, w: nat, r: nat)
    requires threads > 0 && idle.input == []
    ensures AckCount(Init(threads, idle), schedule, w, r) <= 1
  {
    InitInv(threads, idle);
    AcksBounded(Init(threads, idle), schedule, w, r);
  }

  /** `next_item` never reaches total + (T + 1) * chunk, so a 32-bit counter whose bound
      fits that far cannot wrap. */
  lemma CounterBound<V>(threads: nat, idle: Call<V>, schedule: seq<Event<V>>)
    requires threads > 0 && idle.input == []
    ensures var s := Exec(Init(threads, idle), schedule);
            forall r: nat :: r in s.frames && s.frames[r].chunk != -1 ==>
              0 <= s.frames[r].next < s.frames[r].total + (threads + 1) * s.frames[r].chunk
  {
    ReachableInv(threads, idle, schedule);
  }
}
