/**
 When a round of the thread pool completes.  A worker still waiting for the previous
 round to be cleared when the next one is signalled never leaves that wait, and the
 call then never returns; in every other round the call can always return, and no
 schedule can do more than `Rank` effective steps before it does.  A caller is safe
 exactly if no worker is still in that wait when it calls.
 */
module ThreadPoolProgress {
  import opened Common
  import opened Sums
  import opened ThreadPool
  import opened ThreadPoolSafety

  /** Worker `w` is still waiting for an earlier round to be cleared. */
  predicate Stale<V>(s: State<V>, w: nat)
    requires w < |s.workers|
  {
    s.workers[w].WaitClear? && s.workers[w].work != s.round
  }

  ghost predicate NoStale<V>(s: State<V>)
  {
    forall w: nat :: w < |s.workers| ==> !Stale(s, w)
  }

  // ---------------------------------------------------------------- a stale worker blocks the call

  lemma StaleBlocksStep<V>(s: State<V>, e: Event<V>, w: nat)
    requires Inv(s) && Open(s.main) && w < |s.workers| && Stale(s, w)
    ensures var t := Step(s, e); Open(t.main) && w < |t.workers| && Stale(t, w) && t.round == s.round
  {
    match e
    case WorkerStep(v) => if v < |s.workers| { StaleBlocksWorker(s, v, w); }
    case MainStep => StaleBlocksMain(s, w);
    case Begin(_) =>
  }

  lemma StaleBlocksWorker<V>(s: State<V>, v: nat, w: nat)
    requires Inv(s) && Open(s.main) && v < |s.workers| && w < |s.workers| && Stale(s, w)
    ensures var t := StepWorker(s, v);
      t.main == s.main && |t.workers| == |s.workers| && Stale(t, w) && t.round == s.round
  {
    OnlyWorkerMoves(s, v);
    hide ItemsOk, CompletedOk, CounterOk, DoneOk, RangeStart, RangeEnd;
    if v == w {
      assert s.available && StepWorker(s, w) == s;
    } else {
      hide StepWorker, Inv;
    }
  }

  lemma StaleBlocksMain<V>(s: State<V>, w: nat)
    requires Inv(s) && Open(s.main) && w < |s.workers| && Stale(s, w)
    ensures var t := StepMain(s); Open(t.main) && t.workers == s.workers && t.round == s.round
  {
    assert !s.main.ClearAvailable?;
    if s.main.AwaitWorkers? && StepMain(s) != s { AllAcked(s); }
    hide Inv;
  }

  /** Once a round is open with a stale worker, no schedule makes the call return. */
  lemma {:induction false} StaleNeverReturns<V>(s: State<V>, schedule: seq<Event<V>>, w: nat)
    requires Inv(s) && Open(s.main) && w < |s.workers| && Stale(s, w)
    ensures Open(Exec(s, schedule).main) && Exec(s, schedule).round == s.round
    decreases |schedule|
  {
    if schedule != [] {
      StaleBlocksStep(s, schedule[0], w);
      StepKeepsInv(s, schedule[0]);
      StaleNeverReturns(Step(s, schedule[0]), schedule[1..], w);
    }
  }

  // ---------------------------------------------------------------- otherwise every effective step lowers a rank

  function WorkerRank<V>(s: State<V>, w: nat): nat
  {
    if w >= |s.workers| then 0
    else
      var fixed := if s.call.deterministic && RangeLength(s, w + 1) > 0 then RangeLength(s, w + 1) else 0;
      match s.workers[w]
      case Idle => if s.main.ClearWork? then 0 else 9 + fixed
      case Recheck => 8 + fixed
      case Load => 7 + fixed
      case Start(_) => 6 + fixed
      case Run(_, _, b, i) => 5 + (if b > i then b - i else 0)
      case Commit(_, _, _) => 4
      case Claim(_) => 3
      case Ack(_) => 2
      case WaitClear(_) => 1
      case Fault => 0
  }

  function MainRank(m: MainPc): nat
  {
    match m
    case MRun(_, b, i) => 9 + (if b > i then b - i else 0)
    case MCommit(_, _) => 8
    case MClaim => 7
    case AwaitItems => 6
    case AwaitWorkers => 5
    case ClearAvailable => 4
    case ClearWork => 3
    case _ => 0
  }

  ghost function WorkersRank<V>(s: State<V>): int
  {
    Sum((w: nat) => WorkerRank(s, w), |s.workers|)
  }

  lemma WorkersRankNonnegative<V>(s: State<V>)
    ensures WorkersRank(s) >= 0
  {
    SumBounds((w: nat) => WorkerRank(s, w), |s.workers|, 0, Max((w: nat) => WorkerRank(s, w), |s.workers|));
  }

  /** How many effective steps the round can still make. */
  ghost function Rank<V>(s: State<V>): int
  {
    if !Open(s.main) && !s.main.ClearWork? then 0
    else
      WorkersRank(s) + MainRank(s.main) + Pool(s)
  }

  ghost predicate InRound<V>(s: State<V>)
  {
    Inv(s) && (s.main.ClearWork? || (Open(s.main) && NoStale(s)))
  }

  function Pool<V>(s: State<V>): int { if s.round in s.frames then 4 * UnclaimedCount(s) else 0 }

  /** The step lowers what worker `w` and the counter contribute to the rank. */
  lemma WorkerPaysForStep<V>(s: State<V>, w: nat)
    requires InRound(s) && w < |s.workers|
    ensures var t := StepWorker(s, w); t == s || WorkerRank(t, w) + Pool(t) < WorkerRank(s, w) + Pool(s)
  {
    var t := StepWorker(s, w);
    assert WorkerOk(s, w);
    match s.workers[w]
    case Start(_) => StartPays(s, w);
    case Claim(_) => ClaimPays(s, w);
    case Commit(_, _, _) => CommitPays(s, w);
    case _ => QuietStepPays(s, w);
  }

  lemma QuietStepPays<V>(s: State<V>, w: nat)
    requires InRound(s) && w < |s.workers|
    requires var pc := s.workers[w]; !pc.Start? && !pc.Claim? && !pc.Commit?
    ensures var t := StepWorker(s, w); t == s || WorkerRank(t, w) + Pool(t) < WorkerRank(s, w) + Pool(s)
  {
    hide ItemsOk, CompletedOk, CounterOk, DoneOk, RangeStart, RangeEnd;
    assert WorkerOk(s, w);
  }

  lemma StartPays<V>(s: State<V>, w: nat)
    requires InRound(s) && w < |s.workers| && s.workers[w].Start?
    ensures var t := StepWorker(s, w); WorkerRank(t, w) + Pool(t) < WorkerRank(s, w) + Pool(s)
  {
    RangeWithin(w + 1, |s.call.input|, s.Threads());
    hide ItemsOk, CompletedOk, CounterOk, DoneOk, RangeStart, RangeEnd;
    assert WorkerOk(s, w);
  }

  lemma ClaimPays<V>(s: State<V>, w: nat)
    requires InRound(s) && w < |s.workers| && s.workers[w].Claim?
    ensures var t := StepWorker(s, w); WorkerRank(t, w) + Pool(t) < WorkerRank(s, w) + Pool(s)
  {
    hide ItemsOk, CompletedOk, CounterOk, DoneOk;
    assert WorkerOk(s, w);
    ChunkPositive(s.call, s.Threads());
    var t, f := StepWorker(s, w), s.frames[s.round];
    assert t.frames == s.frames[s.round := f.(next := f.next + f.chunk)];
  }

  lemma CommitPays<V>(s: State<V>, w: nat)
    requires InRound(s) && w < |s.workers| && s.workers[w].Commit?
    ensures var t := StepWorker(s, w); WorkerRank(t, w) + Pool(t) < WorkerRank(s, w) + Pool(s)
  {
    hide ItemsOk, CompletedOk, CounterOk, DoneOk;
    assert WorkerOk(s, w);
    var t, f := StepWorker(s, w), s.frames[s.round];
    assert t.frames == s.frames[s.round := f.(completed := t.frames[s.round].completed)];
  }

  lemma WorkerLowersRank<V>(s: State<V>, w: nat)
    requires InRound(s) && w < |s.workers|
    ensures StepWorker(s, w) == s || Rank(StepWorker(s, w)) < Rank(s)
  {
    hide Inv, WorkersRank, WorkerRank, Pool, MainRank, StepWorker;
    WorkerPaysForStep(s, w);
    OnlyWorkerMoves(s, w);
    RankMoved(s, StepWorker(s, w), w);
  }

  lemma RankMoved<V>(s: State<V>, t: State<V>, w: nat)
    requires |t.workers| == |s.workers|
    requires w < |s.workers| && t.workers == s.workers[w := t.workers[w]]
    requires t.main == s.main && t.round == s.round && t.call == s.call
    ensures WorkersRank(t) == WorkersRank(s) - WorkerRank(s, w) + WorkerRank(t, w)
  {
    SumChange((v: nat) => WorkerRank(s, v), (v: nat) => WorkerRank(t, v), |s.workers|, w);
  }

  lemma MainLowersRank<V>(s: State<V>)
    requires InRound(s)
    ensures StepMain(s) == s || StepMain(s).main.Outside? || Rank(StepMain(s)) < Rank(s)
  {
    var t := StepMain(s);
    if !t.main.Outside? {
      MainKeepsWorkersRank(s);
      MainPaysForStep(s);
      hide StepMain, WorkersRank, Pool, MainRank, Inv, NoStale;
      assert Rank(s) == WorkersRank(s) + MainRank(s.main) + Pool(s);
    }
  }

  lemma MainKeepsWorkersRank<V>(s: State<V>)
    requires InRound(s) && !StepMain(s).main.Outside?
    ensures WorkersRank(StepMain(s)) == WorkersRank(s)
  {
    var t := StepMain(s);
    MainLeavesWorkers(s);
    hide StepMain, Inv, InRound;
    forall w: nat | w < |s.workers| ensures WorkerRank(t, w) == WorkerRank(s, w) {}
    SumSame((v: nat) => WorkerRank(s, v), (v: nat) => WorkerRank(t, v), |s.workers|);
  }

  lemma MainLeavesWorkers<V>(s: State<V>)
    requires InRound(s) && !StepMain(s).main.Outside?
    ensures var t := StepMain(s);
      && t.workers == s.workers && t.call == s.call
      && (t.main.ClearWork? != s.main.ClearWork? ==> forall w: nat :: w < |s.workers| ==> !s.workers[w].Idle?)
  {
    var t := StepMain(s);
    if t.main.ClearWork? != s.main.ClearWork? {
      forall w: nat | w < |s.workers| ensures !s.workers[w].Idle? { assert WorkerOk(s, w) && !Stale(s, w); }
    }
  }

  /** The step lowers what the main thread and the counter contribute to the rank. */
  lemma MainPaysForStep<V>(s: State<V>)
    requires InRound(s) && !StepMain(s).main.Outside?
    ensures var t := StepMain(s);
      && (Open(t.main) || t.main.ClearWork?)
      && (t == s || MainRank(t.main) + Pool(t) < MainRank(s.main) + Pool(s))
  {
    if s.main.MClaim? { ChunkPositive(s.call, s.Threads()); }
  }

  lemma WorkerKeepsNoStale<V>(s: State<V>, w: nat)
    requires InRound(s) && w < |s.workers|
    ensures s.main.ClearWork? || NoStale(StepWorker(s, w))
  {
    var t := StepWorker(s, w);
    assert WorkerOk(s, w);
    if !s.main.ClearWork? {
      forall v: nat | v < |t.workers| ensures !Stale(t, v) { assert !Stale(s, v); }
    }
  }

  /** In a round without stale workers, every step that changes anything lowers the rank,
      and the round stays free of stale workers, until the call returns. */
  lemma EffectiveStepsLowerRank<V>(s: State<V>, e: Event<V>)
    requires InRound(s) && !e.Begin?
    ensures var t := Step(s, e); t == s || t.main.Outside? || (InRound(t) && 0 <= Rank(t) < Rank(s))
  {
    StepKeepsInv(s, e);
    var t := Step(s, e);
    WorkersRankNonnegative(t);
    PoolNonnegative(t);
    if e.MainStep? {
      MainLowersRank(s);
      MainKeepsRound(s);
      hide Inv, StepMain, WorkersRank, Pool, MainRank, NoStale;
    } else if e.worker < |s.workers| {
      WorkerLowersRank(s, e.worker);
      WorkerKeepsNoStale(s, e.worker);
      OnlyWorkerMoves(s, e.worker);
      hide Inv, StepWorker, WorkersRank, Pool, MainRank, NoStale;
    }
  }

  /** The main thread stays in the round, without stale workers, until it returns. */
  lemma MainKeepsRound<V>(s: State<V>)
    requires InRound(s)
    ensures var t := StepMain(s); t.main.Outside? || t.main.ClearWork? || (Open(t.main) && NoStale(t))
  {
    var t := StepMain(s);
    if Open(t.main) {
      assert t.workers == s.workers && t.round == s.round;
      forall v: nat | v < |t.workers| ensures !Stale(t, v) { assert !Stale(s, v); }
    }
    hide Inv;
  }

  /** The steps of a schedule that change anything, up to the return. */
  ghost function EffectiveSteps<V>(s: State<V>, schedule: seq<Event<V>>): nat
    decreases |schedule|
  {
    if schedule == [] || s.main.Outside? then 0
    else
      (if Step(s, schedule[0]) == s then 0 else 1) + EffectiveSteps(Step(s, schedule[0]), schedule[1..])
  }

  /** However a round without stale workers is scheduled, at most `Rank` steps have an effect before
      the call returns. */
  lemma {:induction false} EffectiveStepsBounded<V>(s: State<V>, schedule: seq<Event<V>>)
    requires InRound(s) && NoBegin(schedule)
    ensures EffectiveSteps(s, schedule) <= Rank(s)
    decreases |schedule|
  {
    hide Inv, Step, WorkersRank, Pool, NoStale;
    WorkersRankNonnegative(s);
    PoolNonnegative(s);
    if schedule != [] {
      var e := schedule[0];
      EffectiveStepsLowerRank(s, e);
      var t := Step(s, e);
      if t.main.Outside? {
        assert EffectiveSteps(t, schedule[1..]) == 0;
      } else {
        EffectiveStepsBounded(t, schedule[1..]);
      }
    }
  }

  lemma PoolNonnegative<V>(s: State<V>)
    ensures Pool(s) >= 0
  {
  }

  /** In terms of the call: T threads and n items allow T * (9 + n) + 4 * n effective steps. */
  lemma RankBounded<V>(s: State<V>)
    requires InRound(s)
    ensures Rank(s) <= s.Threads() * (9 + |s.call.input|) + 4 * |s.call.input|
  {
    var n, most := |s.workers|, 9 + |s.call.input|;
    PartsBounded(s);
    hide Inv, WorkerRank, MainRank, Pool;
    SumBounds((w: nat) => WorkerRank(s, w), n, 0, most);
    OneMore(n + 1, most);
  }

  lemma PartsBounded<V>(s: State<V>)
    requires InRound(s)
    ensures forall w: nat :: w < |s.workers| ==> 0 <= WorkerRank(s, w) <= 9 + |s.call.input|
    ensures MainRank(s.main) <= 9 + |s.call.input| && Pool(s) <= 4 * |s.call.input|
  {
    hide ItemsOk, CompletedOk, CounterOk, DoneOk;
    forall w: nat | w < |s.workers| ensures 0 <= WorkerRank(s, w) <= 9 + |s.call.input| {
      assert WorkerOk(s, w);
      RangeWithin(w + 1, |s.call.input|, s.Threads());
      hide RangeStart, RangeEnd;
    }
  }

  /** A worker that has not acknowledged an open round always has something to do. */
  lemma BusyWorkerMoves<V>(s: State<V>, w: nat)
    requires InRound(s) && Open(s.main) && w < |s.workers| && s.workers[w] != WaitClear(s.round)
    ensures StepWorker(s, w) != s
  {
    assert WorkerOk(s, w) && !Stale(s, w);
    assert StepWorker(s, w).workers[w] != s.workers[w];
  }

  /** Until the call returns, some thread can make an effective step. */
  lemma SomeStepIsEffective<V(!new)>(s: State<V>)
    requires InRound(s)
    ensures exists e: Event<V> :: !e.Begin? && Step(s, e) != s
  {
    if StepMain(s) != s {
      assert Step(s, MainStep) != s;
    } else if w: nat :| w < |s.workers| && s.workers[w] != WaitClear(s.round) {
      BusyWorkerMoves(s, w);
      assert Step(s, WorkerStep(w)) != s;
    } else {
      AllWaitingIsDone(s);
    }
  }

  lemma AllWaitingIsDone<V>(s: State<V>)
    requires InRound(s)
    requires forall w: nat :: w < |s.workers| ==> s.workers[w] == WaitClear(s.round)
    ensures StepMain(s) != s
  {
    var n := |s.workers|;
    SumSame((w: nat) => Acked(s, w), (w: nat) => 1, n);
    SumBounds((w: nat) => 1, n, 1, 1);
    SumBounds((w: nat) => Uncommitted(s, w), n, 0, 0);
  }

  predicate NoBegin<V>(schedule: seq<Event<V>>) { forall k: nat :: k < |schedule| ==> !schedule[k].Begin? }

  /** Some schedule makes the call in progress return. */
  ghost predicate CanReturn<V(!new)>(s: State<V>)
  {
    exists schedule: seq<Event<V>> :: NoBegin(schedule) && Exec(s, schedule).main.Outside?
  }

  /** A state from which one step leads to such a state is one itself. */
  lemma StepCanReturn<V(!new)>(s: State<V>, e: Event<V>)
    requires !e.Begin? && CanReturn(Step(s, e))
    ensures CanReturn(s)
  {
    var rest: seq<Event<V>> :| NoBegin(rest) && Exec(Step(s, e), rest).main.Outside?;
    ExecOne(s, e);
    ExecAppend(s, [e], rest);
    assert NoBegin([e] + rest);
  }

  lemma OutsideCanReturn<V(!new)>(s: State<V>)
    requires s.main.Outside?
    ensures CanReturn(s)
  {
    var none: seq<Event<V>> := [];
    assert NoBegin(none) && Exec(s, none) == s;
  }

  /** From any point of such a round the call can be driven to its return. */
  lemma {:induction false} RoundReturns<V(!new)>(s: State<V>)
    requires InRound(s)
    ensures CanReturn(s)
    decreases Rank(s)
  {
    WorkersRankNonnegative(s);
    SomeStepIsEffective(s);
    var e: Event<V> :| !e.Begin? && Step(s, e) != s;
    EffectiveStepsLowerRank(s, e);
    if Step(s, e).main.Outside? { OutsideCanReturn(Step(s, e)); } else { RoundReturns(Step(s, e)); }
    StepCanReturn(s, e);
  }

  /** Exactly when an open round can complete. */
  lemma ReturnsIffNoStale<V(!new)>(s: State<V>)
    requires Inv(s) && Open(s.main)
    ensures CanReturn(s) <==> NoStale(s)
  {
    if NoStale(s) {
      RoundReturns(s);
    } else {
      var w: nat :| w < |s.workers| && Stale(s, w);
      StaleCannotReturn(s, w);
    }
  }

  lemma StaleCannotReturn<V(!new)>(s: State<V>, w: nat)
    requires Inv(s) && Open(s.main) && w < |s.workers| && Stale(s, w)
    ensures !CanReturn(s)
  {
    forall schedule: seq<Event<V>> ensures !Exec(s, schedule).main.Outside? {
      StaleNeverReturns(s, schedule, w);
    }
  }

  // ---------------------------------------------------------------- the caller's side

  /** A state in or between calls without stale workers. */
  ghost predicate Calm<V>(s: State<V>)
  {
    Inv(s) && (s.main.Outside? || s.main.Solo? || s.main.ClearWork? || NoStale(s))
  }

  lemma CalmStep<V>(s: State<V>, e: Event<V>)
    requires Calm(s) && !e.Begin?
    ensures Calm(Step(s, e))
  {
    StepKeepsInv(s, e);
    if InRound(s) {
      EffectiveStepsLowerRank(s, e);
    } else if Before(s.main) {
      BeforeStaysCalm(s, e);
    }
  }

  /** Before the round is signalled the workers are all idle and stay so. */
  lemma BeforeStaysCalm<V>(s: State<V>, e: Event<V>)
    requires Inv(s) && NoStale(s) && Before(s.main) && !e.Begin?
    ensures NoStale(Step(s, e)) && (Before(Step(s, e).main) || Open(Step(s, e).main))
  {
    forall w: nat | w < |s.workers| ensures s.workers[w].Idle? { assert WorkerOk(s, w) && !Stale(s, w); }
  }

  lemma {:induction false} CalmExec<V>(s: State<V>, schedule: seq<Event<V>>)
    requires Calm(s) && NoBegin(schedule)
    ensures Calm(Exec(s, schedule))
    decreases |schedule|
  {
    hide Calm, Step;
    if schedule != [] {
      CalmStep(s, schedule[0]);
      CalmExec(Step(s, schedule[0]), schedule[1..]);
    }
  }

  /** How many steps of the main thread a call is from its open phase, or from the end of its fallback. */
  function ToOpen<V>(s: State<V>): nat
  {
    match s.main
    case Reset => 3
    case Publish => 2
    case Signal => 1
    case Solo(i) => if i <= |s.out| then |s.out| - i + 1 else 0
    case _ => 0
  }

  lemma ToOpenFalls<V>(s: State<V>)
    requires Inv(s) && (Before(s.main) || s.main.Solo?)
    ensures ToOpen(StepMain(s)) < ToOpen(s)
  {
  }

  lemma {:induction false} CalmReturns<V(!new)>(s: State<V>)
    requires Calm(s)
    ensures CanReturn(s)
    decreases ToOpen(s)
  {
    if s.main.Outside? {
      OutsideCanReturn(s);
    } else if InRound(s) {
      RoundReturns(s);
    } else {
      CalmStep(s, MainStep);
      ToOpenFalls(s);
      CalmReturns(Step(s, MainStep));
      StepCanReturn(s, MainStep);
    }
  }

  ghost predicate SomeWaits<V>(s: State<V>)
  {
    exists w: nat :: w < |s.workers| && s.workers[w].WaitClear?
  }

  /** Entering a call makes a worker that still waits a stale one, and nobody else. */
  lemma BeginCalm<V>(s: State<V>, c: Call<V>)
    requires Inv(s) && s.main.Outside? && !SomeWaits(s)
    ensures Calm(BeginCall(s, c))
  {
    BeginKeepsInv(s, c);
    var t := BeginCall(s, c);
    forall w: nat | w < |t.workers| ensures !Stale(t, w) { assert !s.workers[w].WaitClear?; }
  }

  function PublishSteps<V>(): seq<Event<V>> { [MainStep] + [MainStep] + [MainStep] }

  lemma ThreeTimes<V>(s: State<V>, e: Event<V>)
    ensures Exec(s, [e] + [e] + [e]) == Step(Step(Step(s, e), e), e)
  {
    hide Step;
    ExecOne(s, e);
    ExecSnoc(s, [e], e);
    ExecSnoc(s, [e] + [e], e);
  }

  /** Three steps of the main thread publish a round; the workers need not move. */
  lemma PublishOpens<V>(s: State<V>)
    requires Inv(s) && s.main.Reset?
    ensures var t := Exec(s, PublishSteps());
      Inv(t) && Open(t.main) && !t.main.ClearAvailable? && t.round == s.round && t.workers == s.workers
  {
    ThreeTimes(s, MainStep);
    ExecKeepsInv(s, PublishSteps());
    hide Inv, CounterOk, CompletedOk, ItemsOk, WorkersOk;
    assert FrameOk(s);
    var s1 := StepMain(s);
    var s2 := StepMain(s1);
    assert s1.main == Publish && s2.main == Signal && s2.frames == s.frames;
  }

  /** A call may be scheduled so that it never returns if and only if, when it is made, some worker
      is still waiting for the previous round to be cleared. */
  lemma NextCallIsLostIff<V(!new)>(s: State<V>, c: Call<V>)
    requires Inv(s) && s.main.Outside?
    ensures (exists begun: seq<Event<V>> :: NoBegin(begun) && !CanReturn(Exec(BeginCall(s, c), begun)))
      <==> SomeWaits(s)
  {
    var t := BeginCall(s, c);
    if SomeWaits(s) {
      var w: nat :| w < |s.workers| && s.workers[w].WaitClear?;
      BeginKeepsInv(s, c);
      assert WorkerOk(s, w);
      PublishOpens(t);
      StaleCannotReturn(Exec(t, PublishSteps()), w);
      assert NoBegin(PublishSteps<V>());
    } else {
      BeginCalm(s, c);
      forall begun: seq<Event<V>> | NoBegin(begun) ensures CanReturn(Exec(t, begun)) {
        CalmExec(t, begun);
        CalmReturns(Exec(t, begun));
      }
    }
  }

  // ---------------------------------------------------------------- stale workers do occur

  lemma {:induction false} ExecAppend<V>(s: State<V>, a: seq<Event<V>>, b: seq<Event<V>>)
    ensures Exec(s, a + b) == Exec(Exec(s, a), b)
    decreases |a|
  {
    if a == [] {
      assert a + b == b;
    } else {
      assert (a + b)[1..] == a[1..] + b;
      ExecAppend(Step(s, a[0]), a[1..], b);
    }
  }

  lemma ExecOne<V>(s: State<V>, e: Event<V>)
    ensures Exec(s, [e]) == Step(s, e)
  {
    assert [e][1..] == [];
  }

  lemma ExecSnoc<V>(s: State<V>, a: seq<Event<V>>, e: Event<V>)
    ensures Exec(s, a + [e]) == Step(Exec(s, a), e)
  {
    ExecAppend(s, a, [e]);
    ExecOne(Exec(s, a), e);
  }

  /** An open round can be driven to the point where the main thread has seen every acknowledgement. */
  lemma {:induction false} RoundClears<V(!new)>(s: State<V>) returns (schedule: seq<Event<V>>)
    requires InRound(s) && Open(s.main)
    ensures NoBegin(schedule) && Inv(Exec(s, schedule)) && Exec(s, schedule).main.ClearAvailable?
    decreases Rank(s)
  {
    if s.main.ClearAvailable? {
      schedule := [];
    } else {
      WorkersRankNonnegative(s);
      SomeStepIsEffective(s);
      var e: Event<V> :| !e.Begin? && Step(s, e) != s;
      EffectiveStepsLowerRank(s, e);
      StaysOpen(s, e);
      var rest := RoundClears(Step(s, e));
      ExecOne(s, e);
      ExecAppend(s, [e], rest);
      schedule := [e] + rest;
    }
  }

  lemma StaysOpen<V>(s: State<V>, e: Event<V>)
    requires Open(s.main) && !s.main.ClearAvailable? && !e.Begin?
    ensures Open(Step(s, e).main)
  {
  }

  /** The main thread then returns before any worker looks again. */
  lemma ClearsUnseen<V>(s: State<V>)
    requires Inv(s) && s.main.ClearAvailable?
    ensures var t := Exec(s, [MainStep] + [MainStep]); t.main.Outside? && SomeWaits(t)
  {
    ExecOne(s, MainStep);
    ExecSnoc(s, [MainStep], MainStep);
    assert s.workers[0].WaitClear?;
  }

  /** So on a pool with a worker every pair of calls can go wrong: from a state in which nobody waits,
      the first call can be scheduled to return such that the second may never do so. */
  lemma AnyNextCallCanBeLost<V(!new)>(s: State<V>, c: Call<V>, d: Call<V>)
    requires Inv(s) && s.main.Outside? && !SomeWaits(s) && |s.workers| > 0
    ensures exists first: seq<Event<V>>, second: seq<Event<V>> ::
      var between := Exec(BeginCall(s, c), first);
      && NoBegin(first) && between.main.Outside?
      && NoBegin(second) && !CanReturn(Exec(BeginCall(between, d), second))
  {
    hide Inv, Step, NoStale;
    BeginCalm(s, c);
    var t := BeginCall(s, c);
    PublishOpens(t);
    assert NoBegin(PublishSteps<V>());
    CalmExec(t, PublishSteps());
    var ready := Exec(t, PublishSteps());
    var middle := RoundClears(ready);
    ClearsUnseen(Exec(ready, middle));
    var last := [MainStep] + [MainStep];
    ExecAppend(t, PublishSteps() + middle, last);
    ExecAppend(t, PublishSteps(), middle);
    var first := PublishSteps() + middle + last;
    ExecKeepsInv(t, first);
    var between := Exec(t, first);
    NextCallIsLostIff(between, d);
    var second :| NoBegin(second) && !CanReturn(Exec(BeginCall(between, d), second));
    assert NoBegin(first);
  }

  lemma FiveTimes<V>(s: State<V>, e: Event<V>)
    ensures Exec(s, [e] + [e] + [e] + [e] + [e]) == Step(Step(Step(Step(Step(s, e), e), e), e), e)
  {
    hide Step;
    ExecOne(s, e);
    ExecSnoc(s, [e], e);
    ExecSnoc(s, [e] + [e], e);
    ExecSnoc(s, [e] + [e] + [e], e);
    ExecSnoc(s, [e] + [e] + [e] + [e], e);
  }

  lemma SixTimes<V>(s: State<V>, e: Event<V>)
    ensures Exec(s, [e] + [e] + [e] + [e] + [e] + [e]) == Step(Step(Step(Step(Step(Step(s, e), e), e), e), e), e)
  {
    hide Step;
    FiveTimes(s, e);
    ExecSnoc(s, [e] + [e] + [e] + [e] + [e], e);
  }

  function OpenSteps<V>(c: Call<V>): seq<Event<V>> { [Begin(c)] + [MainStep] + [MainStep] + [MainStep] }

  /** Main steps take a round of one item from its entry to the open phase. */
  lemma OpenShortRound<V>(s: State<V>, c: Call<V>)
    requires s.main.Outside? && |s.workers| == 1 && |c.input| == 1 && !c.deterministic
    ensures var t := Exec(s, OpenSteps(c));
            t.main == MClaim && t.round == s.round + 1 && t.workers == s.workers && t.available && t.done == 0
            && t.current == Some(t.round) && t.frames == s.frames[t.round := Frame(c.func, 1, ChunkOf(c, 2), 0, 0)]
            && t.call == c && t.out == c.input && t.hits == [0]
  {
    var s1 := Step(s, Begin(c));
    assert s1 == BeginCall(s, c) && s1.main == Reset && s1.round == s.round + 1 && s1.workers == s.workers
        && s1.frames == s.frames[s1.round := Frame(c.func, 1, ChunkOf(c, 2), 0, 0)]
        && s1.call == c && s1.out == c.input && s1.hits == [0];
    ChunkPositive(c, 2);
    hide BeginCall, Step, ChunkOf;
    PublishedState(s1);
    ExecOne(s, Begin(c));
    ExecSnoc(s, [Begin(c)], MainStep);
    ExecSnoc(s, [Begin(c)] + [MainStep], MainStep);
    ExecSnoc(s, [Begin(c)] + [MainStep] + [MainStep], MainStep);
  }

  /** What three steps of the main thread change when a round is published for stealing. */
  lemma PublishedState<V>(s: State<V>)
    requires s.main == Reset && s.round in s.frames && s.frames[s.round].chunk >= 1
    ensures Step(Step(Step(s, MainStep), MainStep), MainStep)
         == s.(done := 0, current := Some(s.round), available := true, main := MClaim)
  {
    assert Step(s, MainStep) == s.(done := 0, main := Publish);
    assert Step(Step(s, MainStep), MainStep) == s.(done := 0, current := Some(s.round), main := Signal);
  }

  function ItemSteps<V>(): seq<Event<V>> { [MainStep] + [MainStep] + [MainStep] + [MainStep] }

  /** The main thread claims the item, executes it and commits it, before the worker looks. */
  lemma MainDoesItem<V>(s: State<V>)
    requires s.main == MClaim && s.round in s.frames && |s.out| == |s.hits| == 1
    requires var f := s.frames[s.round]; f.total == 1 && f.next == 0 && f.chunk >= 1
    ensures var t := Exec(s, ItemSteps());
            t.main == MClaim && t.round == s.round && t.workers == s.workers && t.call == s.call
            && t.hits == [s.hits[0] + 1] && t.round in t.frames
            && t.frames[t.round].next >= t.frames[t.round].total && t.frames[t.round].chunk >= 1
  {
    var m := MainStep;
    var s1 := Step(s, m);
    var s2 := Step(s1, m);
    var s3 := Step(s2, m);
    assert s1.main == MRun(0, 1, 0) && s1.frames[s.round].next == s.frames[s.round].chunk;
    assert s2.main == MRun(0, 1, 1) && s2.frames == s1.frames && s2.hits == [s.hits[0] + 1];
    assert s3.main == MCommit(0, 1) && s3.frames == s1.frames;
    ThreeTimes(s, m);
    ExecSnoc(s, [m] + [m] + [m], m);
  }

  function AckSteps<V>(): seq<Event<V>> {
    var w := WorkerStep(0);
    [w] + [w] + [w] + [w] + [w] + [w]
  }

  /** The only worker runs through an open round whose items are all taken up to its acknowledgement. */
  lemma WorkerAcknowledges<V>(s: State<V>)
    requires Inv(s) && s.main == MClaim && s.workers == [Idle]
    requires s.frames[s.round].next >= s.frames[s.round].total && s.frames[s.round].chunk >= 1
    ensures var t := Exec(s, AckSteps());
            && t.main == MClaim && t.round == s.round && t.workers == [WaitClear(t.round)] && t.done == 1
            && t.call == s.call && t.round in t.frames && t.frames[t.round].next >= t.frames[t.round].total
  {
    var w := WorkerStep(0);
    SixTimes(s, w);
    SumBounds((v: nat) => Acked(s, v), 1, 0, 0);
    assert s.available && s.current == Some(s.round) && s.round in s.frames && s.done == 0;
    hide Inv;
    WorkerStarts(s);
    WorkerFindsNothing(s.(workers := [Start(s.round)]));
  }

  lemma WorkerStarts<V>(s: State<V>)
    requires s.workers == [Idle] && s.available && s.current == Some(s.round)
    ensures var w := WorkerStep(0); Step(Step(Step(s, w), w), w) == s.(workers := [Start(s.round)])
  {
    var w := WorkerStep(0);
    assert Step(s, w) == s.(workers := [Recheck]);
    assert Step(s.(workers := [Recheck]), w) == s.(workers := [Load]);
    assert Step(s.(workers := [Load]), w) == s.(workers := [Start(s.round)]);
  }

  lemma WorkerFindsNothing<V>(s: State<V>)
    requires s.workers == [Start(s.round)] && s.round in s.frames
    requires s.frames[s.round].chunk >= 1 && s.frames[s.round].next >= s.frames[s.round].total
    ensures var w := WorkerStep(0); var t := Step(Step(Step(s, w), w), w);
      && t.main == s.main && t.round == s.round && t.workers == [WaitClear(s.round)] && t.done == s.done + 1
      && t.call == s.call && t.round in t.frames && t.frames[t.round].next >= t.frames[t.round].total
  {
    var w := WorkerStep(0);
    assert Step(s, w) == s.(workers := [Claim(s.round)]);
    assert Step(Step(s, w), w).workers == [Ack(s.round)];
  }

  function FinishSteps<V>(): seq<Event<V>> {
    var m := MainStep;
    [m] + [m] + [m] + [m] + [m]
  }

  /** The main thread then finishes the round and returns. */
  lemma MainReturns<V>(s: State<V>)
    requires Inv(s) && s.main == MClaim && s.workers == [WaitClear(s.round)] && s.done == 1
    requires s.frames[s.round].next >= s.frames[s.round].total
    ensures var t := Exec(s, FinishSteps()); t.main == Outside && t.round == s.round && t.workers == s.workers
  {
    assert CompletedOk(s);
    SumBounds((v: nat) => Uncommitted(s, v), 1, 0, 0);
    assert s.round in s.frames && s.frames[s.round].completed >= s.frames[s.round].total;
    hide Inv;
    NothingLeft(s);
    FiveTimes(s, MainStep);
  }

  lemma NothingLeft<V>(s: State<V>)
    requires s.main == MClaim && |s.workers| == 1 && s.done == 1 && s.round in s.frames
    requires var f := s.frames[s.round]; f.next >= f.total && f.completed >= f.total
    ensures var m := MainStep; var t := Step(Step(Step(Step(Step(s, m), m), m), m), m);
      t.main == Outside && t.round == s.round && t.workers == s.workers
  {
    var m := MainStep;
    var s1 := Step(s, m);
    var s2 := Step(s1, m);
    var s3 := Step(s2, m);
    assert s1.main == AwaitItems && s2.main == AwaitWorkers && s3.main == ClearAvailable;
  }

  /** A call of one item that the main thread does and the worker acknowledges. */
  function ShortCall<V>(c: Call<V>): seq<Event<V>> { OpenSteps(c) + ItemSteps() + AckSteps() + FinishSteps() }

  lemma ShortCallReturns<V>(s: State<V>, c: Call<V>)
    requires Inv(s) && s.main.Outside? && s.workers == [Idle] && |c.input| == 1 && !c.deterministic
    ensures var t := Exec(s, ShortCall(c));
      Inv(t) && t.main.Outside? && t.round == s.round + 1 && t.workers == [WaitClear(t.round)]
  {
    var enter, item, ack, finish := OpenSteps(c), ItemSteps<V>(), AckSteps<V>(), FinishSteps<V>();
    var s1 := Exec(s, enter);
    var s2 := Exec(s1, item);
    var s3 := Exec(s2, ack);
    ExecAppend(s, enter + item + ack, finish);
    ExecAppend(s, enter + item, ack);
    ExecAppend(s, enter, item);
    ExecKeepsInv(s, enter);
    ExecKeepsInv(s1, item);
    ExecKeepsInv(s2, ack);
    ExecKeepsInv(s3, finish);
    hide Inv, FinishSteps, AckSteps, ItemSteps, OpenSteps, Exec;
    ChunkPositive(c, 2);
    OpenShortRound(s, c);
    MainDoesItem(s1);
    WorkerAcknowledges(s2);
    MainReturns(s3);
  }

  /** Two such calls in a row; the worker does not look again after the first. */
  function LostWakeupSchedule<V>(c: Call<V>): seq<Event<V>> { ShortCall(c) + OpenSteps(c) }

  /** A concrete run: with two threads and two calls of one item each, the second call is left waiting
      for ever, because the worker has not looked at `work_available` between the two rounds. */
  lemma LostWakeup<V(!new)>(idle: Call<V>, c: Call<V>)
    requires idle.input == [] && |c.input| == 1 && !c.deterministic
    ensures var s := Exec(Init(2, idle), LostWakeupSchedule(c));
            && s.round == 2 && Open(s.main) && |s.workers| == 1 && Stale(s, 0)
            && forall more: seq<Event<V>> :: !Exec(s, more).main.Outside?
  {
    var s0 := Init(2, idle);
    InitInv(2, idle);
    assert s0.workers == [Idle];
    hide Inv, ShortCall, OpenSteps, Exec, Step;
    ShortCallReturns(s0, c);
    var s1 := Exec(s0, ShortCall(c));
    OpenShortRound(s1, c);
    ExecKeepsInv(s1, OpenSteps(c));
    ExecAppend(s0, ShortCall(c), OpenSteps(c));
    var s2 := Exec(s1, OpenSteps(c));
    forall more: seq<Event<V>> ensures !Exec(s2, more).main.Outside? { StaleNeverReturns(s2, more, 0); }
  }
}
