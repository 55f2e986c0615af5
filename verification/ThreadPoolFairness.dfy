/**
 Fair schedules of the thread pool.  A sweep gives the main thread and every worker at least
 one step; a schedule made of enough sweeps makes the call return, unless a worker was still
 waiting for the previous round to be cleared when it was made.
 */
module ThreadPoolFairness {
  import opened ThreadPool
  import opened ThreadPoolSafety
  import opened ThreadPoolProgress

  /** What a round of n items on T threads can still do when it opens. */
  function RoundBound(threads: nat, items: nat): nat { threads * (9 + items) + 4 * items }

  /** How many effective steps a call without stale workers can still make. */
  ghost function Fuel<V>(s: State<V>): int
  {
    if s.main.Outside? then 0
    else if s.main.Solo? then ToOpen(s)
    else if Before(s.main) then ToOpen(s) + RoundBound(s.Threads(), |s.call.input|)
    else Rank(s)
  }

  lemma FuelNonnegative<V>(s: State<V>)
    requires Calm(s)
    ensures Fuel(s) >= 0
    ensures InRound(s) ==> Fuel(s) == Rank(s)
  {
    WorkersRankNonnegative(s);
    PoolNonnegative(s);
    hide Inv, WorkersRank, Pool;
  }

  /** Every step that changes anything uses fuel, until the call returns. */
  lemma CalmStepUsesFuel<V>(s: State<V>, e: Event<V>)
    requires Calm(s) && !s.main.Outside? && !e.Begin?
    ensures var t := Step(s, e); Calm(t) && (t == s || t.main.Outside? || Fuel(t) < Fuel(s))
  {
    CalmStep(s, e);
    if InRound(s) {
      EffectiveStepsLowerRank(s, e);
      hide Inv, Step, Rank, RoundBound;
    } else if Before(s.main) {
      BeforeUsesFuel(s, e);
    } else {
      SoloUsesFuel(s, e);
    }
  }

  lemma BeforeUsesFuel<V>(s: State<V>, e: Event<V>)
    requires Inv(s) && NoStale(s) && Before(s.main) && !e.Begin?
    ensures var t := Step(s, e); t == s || Fuel(t) < Fuel(s)
  {
    var t := Step(s, e);
    BeforeStaysCalm(s, e);
    StepKeepsInv(s, e);
    OnlyMainMoves(s, e);
    ToOpenFalls(s);
    if Open(t.main) { RankBounded(t); }
    hide Inv, Step, Rank, NoStale;
  }

  lemma OnlyMainMoves<V>(s: State<V>, e: Event<V>)
    requires Inv(s) && NoStale(s) && Before(s.main) && !e.Begin?
    ensures var t := Step(s, e);
      && (e.WorkerStep? ==> t == s) && t.Threads() == s.Threads() && t.call == s.call
  {
    forall w: nat | w < |s.workers| ensures s.workers[w].Idle? { assert WorkerOk(s, w) && !Stale(s, w); }
  }

  lemma SoloUsesFuel<V>(s: State<V>, e: Event<V>)
    requires Inv(s) && s.main.Solo? && !e.Begin?
    ensures var t := Step(s, e); t == s || t.main.Outside? || Fuel(t) < Fuel(s)
  {
    if e.MainStep? { ToOpenFalls(s); }
  }

  /** And until then some thread has such a step. */
  lemma CalmSomeStep<V(!new)>(s: State<V>) returns (e: Event<V>)
    requires Calm(s) && !s.main.Outside?
    ensures !e.Begin? && Step(s, e) != s
    ensures e.WorkerStep? ==> e.worker < |s.workers|
  {
    if InRound(s) {
      SomeStepIsEffective(s);
      e :| !e.Begin? && Step(s, e) != s;
    } else {
      ToOpenFalls(s);
      e := MainStep;
    }
  }

  lemma {:induction false} OutsideStays<V>(s: State<V>, schedule: seq<Event<V>>)
    requires s.main.Outside? && NoBegin(schedule)
    ensures Exec(s, schedule).main.Outside?
    decreases |schedule|
  {
    if schedule != [] { OutsideStays(Step(s, schedule[0]), schedule[1..]); }
  }

  /** No schedule adds fuel. */
  lemma {:induction false} FuelNeverRises<V>(s: State<V>, schedule: seq<Event<V>>)
    requires Calm(s) && NoBegin(schedule)
    ensures var t := Exec(s, schedule); Calm(t) && (t.main.Outside? || Fuel(t) <= Fuel(s))
    decreases |schedule|
  {
    hide Calm, Step, Fuel;
    if s.main.Outside? {
      OutsideStays(s, schedule);
      CalmExec(s, schedule);
    } else if schedule != [] {
      CalmStepUsesFuel(s, schedule[0]);
      FuelNeverRises(Step(s, schedule[0]), schedule[1..]);
      if Step(s, schedule[0]).main.Outside? { OutsideStays(Step(s, schedule[0]), schedule[1..]); }
    }
  }

  /** A schedule that contains a step effective at its start uses fuel or returns. */
  lemma {:induction false} EffectiveEventPays<V>(s: State<V>, schedule: seq<Event<V>>, e: Event<V>)
    requires Calm(s) && !s.main.Outside? && NoBegin(schedule) && e in schedule && Step(s, e) != s
    ensures var t := Exec(s, schedule); Calm(t) && (t.main.Outside? || Fuel(t) < Fuel(s))
    decreases |schedule|
  {
    hide Calm, Step, Fuel;
    var first, rest := schedule[0], schedule[1..];
    var t := Step(s, first);
    CalmStepUsesFuel(s, first);
    if t == s {
      EffectiveEventPays(s, rest, e);
    } else if t.main.Outside? {
      OutsideStays(t, rest);
      CalmExec(t, rest);
    } else {
      FuelNeverRises(t, rest);
    }
  }

  /** Every thread gets at least one step. */
  ghost predicate Sweep<V>(workers: nat, events: seq<Event<V>>) {
    && NoBegin(events) && MainStep in events
    && forall w: nat :: w < workers ==> WorkerStep(w) in events
  }

  function Joined<V>(sweeps: seq<seq<Event<V>>>): seq<Event<V>> {
    if sweeps == [] then [] else sweeps[0] + Joined(sweeps[1..])
  }

  /** However the threads are interleaved, a call without stale workers returns within as many sweeps as
      it has fuel: in an open round, `Rank(s)`. */
  lemma {:induction false} FairScheduleReturns<V(!new)>(s: State<V>, sweeps: seq<seq<Event<V>>>)
    requires Calm(s) && |sweeps| > Fuel(s)
    requires forall i :: 0 <= i < |sweeps| ==> Sweep(|s.workers|, sweeps[i])
    ensures Exec(s, Joined(sweeps)).main.Outside?
    decreases |sweeps|
  {
    hide Calm, Step, Fuel, Exec;
    FuelNonnegative(s);
    var rest := sweeps[1..];
    assert Sweep(|s.workers|, sweeps[0]) && forall i :: 0 <= i < |rest| ==> rest[i] == sweeps[i + 1];
    ExecAppend(s, sweeps[0], Joined(rest));
    JoinedHasNoBegin(|s.workers|, rest);
    var t := Exec(s, sweeps[0]);
    if s.main.Outside? {
      OutsideStays(s, sweeps[0]);
    } else {
      var e := CalmSomeStep(s);
      EffectiveEventPays(s, sweeps[0], e);
    }
    ExecKeepsThreads(s, sweeps[0]);
    if t.main.Outside? { OutsideStays(t, Joined(rest)); } else { FairScheduleReturns(t, rest); }
  }

  lemma {:induction false} JoinedHasNoBegin<V>(workers: nat, sweeps: seq<seq<Event<V>>>)
    requires forall i :: 0 <= i < |sweeps| ==> Sweep(workers, sweeps[i])
    ensures NoBegin(Joined(sweeps))
  {
    if sweeps != [] {
      assert Sweep(workers, sweeps[0]);
      JoinedHasNoBegin(workers, sweeps[1..]);
    }
  }

  lemma {:induction false} ExecKeepsThreads<V>(s: State<V>, schedule: seq<Event<V>>)
    ensures |Exec(s, schedule).workers| == |s.workers|
    decreases |schedule|
  {
    hide Step;
    if schedule != [] {
      StepKeepsThreads(s, schedule[0]);
      ExecKeepsThreads(Step(s, schedule[0]), schedule[1..]);
    }
  }

  /** For the caller: a call made while no worker waits for the previous round returns under every
      schedule of more than T * (9 + n) + 4 * n + 3 sweeps, for T threads and n items. */
  lemma FairCallReturns<V(!new)>(s: State<V>, c: Call<V>, sweeps: seq<seq<Event<V>>>)
    requires Inv(s) && s.main.Outside? && !SomeWaits(s)
    requires |sweeps| > RoundBound(s.Threads(), |c.input|) + 3
    requires forall i :: 0 <= i < |sweeps| ==> Sweep(|s.workers|, sweeps[i])
    ensures Exec(BeginCall(s, c), Joined(sweeps)).main.Outside?
  {
    BeginCalm(s, c);
    FuelOfCall(s, c);
    hide Inv, Calm, Fuel, BeginCall, Exec, RoundBound;
    FairScheduleReturns(BeginCall(s, c), sweeps);
  }

  lemma FuelOfCall<V>(s: State<V>, c: Call<V>)
    requires s.main.Outside?
    ensures Fuel(BeginCall(s, c)) <= RoundBound(s.Threads(), |c.input|) + 3
    ensures |BeginCall(s, c).workers| == |s.workers|
  {
    AtLeastItems(s.Threads(), |c.input|);
    hide RoundBound;
  }

  lemma AtLeastItems(threads: nat, items: nat)
    requires threads > 0
    ensures RoundBound(threads, items) >= items
  {
  }
}
