/**
 Safety of the thread pool: in every state of every schedule each item is owed by
 exactly one place until it is executed, no descriptor is used outside the call
 that owns it, and a call that returns has executed every item exactly once.
 */
module ThreadPoolSafety {
  import opened Common
  import opened Sums
  import opened ThreadPool

  // ---------------------------------------------------------------- phases

  /** The call has a descriptor on its stack. */
  predicate Live(m: MainPc) { !m.Outside? && !m.Solo? }

  /** The descriptor exists but workers have not been told. */
  predicate Before(m: MainPc) { m.Reset? || m.Publish? || m.Signal? }

  /** `work_available` is set. */
  predicate Open(m: MainPc) { Live(m) && !Before(m) && !m.ClearWork? }

  /** The main thread has left its own claiming loop. */
  predicate MainExited(m: MainPc) { m.AwaitItems? || m.AwaitWorkers? || m.ClearAvailable? }

  // ---------------------------------------------------------------- who owes what

  /** Worker `w` has not yet begun the current round. */
  predicate Unstarted<V>(s: State<V>, w: nat)
    requires w < |s.workers|
  {
    var pc := s.workers[w];
    pc.Idle? || pc.Recheck? || pc.Load? || pc.Start? || (pc.WaitClear? && pc.work != s.round)
  }

  predicate InRange<V>(s: State<V>, thread: nat, i: int)
  {
    RangeStart(thread, |s.call.input|, s.Threads()) <= i < RangeEnd(thread, |s.call.input|, s.Threads())
  }

  function RangeLength<V>(s: State<V>, thread: nat): int
  {
    RangeEnd(thread, |s.call.input|, s.Threads()) - RangeStart(thread, |s.call.input|, s.Threads())
  }

  /** 1 when worker `w` is the one that will execute item `i`. */
  function Owes<V>(s: State<V>, w: nat, i: int): int
  {
    if w >= |s.workers| then 0
    else if s.workers[w].Run? then (if s.workers[w].item <= i < s.workers[w].end then 1 else 0)
    else if s.call.deterministic && Unstarted(s, w) && InRange(s, w + 1, i) then 1 else 0
  }

  function MainOwes<V>(s: State<V>, i: int): int
  {
    if s.main.MRun? then (if s.main.item <= i < s.main.end then 1 else 0)
    else if s.call.deterministic && Before(s.main) && InRange(s, 0, i) then 1 else 0
  }

  /** Items worker `w` has taken and not yet added to `completed`. */
  function Uncommitted<V>(s: State<V>, w: nat): int
  {
    if w >= |s.workers| then 0
    else if s.workers[w].Run? || s.workers[w].Commit? then s.workers[w].end - s.workers[w].start
    else if s.call.deterministic && Unstarted(s, w) then RangeLength(s, w + 1) else 0
  }

  function MainUncommitted<V>(s: State<V>): int
  {
    if s.main.MRun? || s.main.MCommit? then s.main.end - s.main.start
    else if s.call.deterministic && Before(s.main) then RangeLength(s, 0) else 0
  }

  /** 1 when worker `w` has acknowledged the current round. */
  function Acked<V>(s: State<V>, w: nat): int
  {
    if w < |s.workers| && s.workers[w] == WaitClear(s.round) then 1 else 0
  }

  /** 1 when worker `w` has left the claiming loop of the current round. */
  function Exited<V>(s: State<V>, w: nat): int
  {
    if w < |s.workers| && (s.workers[w] == WaitClear(s.round) || s.workers[w] == Ack(s.round)) then 1 else 0
  }

  ghost function OwedByWorkers<V>(s: State<V>, i: int): int { Sum((w: nat) => Owes(s, w, i), |s.workers|) }
  ghost function UncommittedByWorkers<V>(s: State<V>): int { Sum((w: nat) => Uncommitted(s, w), |s.workers|) }
  ghost function Acks<V>(s: State<V>): int { Sum((w: nat) => Acked(s, w), |s.workers|) }
  ghost function Exits<V>(s: State<V>): int { Sum((w: nat) => Exited(s, w), |s.workers|) }

  /** 1 when item `i` has not been claimed from `next_item` yet. */
  function Unclaimed<V>(s: State<V>, i: int): int
    requires s.round in s.frames
  {
    if !s.call.deterministic && s.frames[s.round].next <= i then 1 else 0
  }

  function UnclaimedCount<V>(s: State<V>): int
    requires s.round in s.frames
  {
    if !s.call.deterministic && s.frames[s.round].next < |s.call.input|
    then |s.call.input| - s.frames[s.round].next else 0
  }

  // ---------------------------------------------------------------- the invariant

  ghost predicate FrameOk<V>(s: State<V>)
  {
    if Live(s.main) then
      && s.frames.Keys == {s.round}
      && s.frames[s.round].func == s.call.func
      && s.frames[s.round].total == |s.call.input|
      && s.frames[s.round].chunk == ChunkOf(s.call, s.Threads())
      && s.frames[s.round].next >= 0
    else s.frames == map[]
  }

  ghost predicate SharedOk<V>(s: State<V>)
  {
    && |s.out| == |s.hits| == |s.call.input|
    && (s.available <==> Open(s.main))
    && s.current == (if s.main.Signal? || Open(s.main) || s.main.ClearWork? then Some(s.round) else None)
    && (Live(s.main) ==> |s.workers| > 0)
    && (s.main.Solo? ==> |s.workers| == 0 && 0 <= s.main.item <= |s.out|)
  }

  ghost predicate SpanOk<V>(s: State<V>, thread: nat, start: int, end: int)
  {
    && 0 <= start <= end <= |s.call.input|
    && (s.call.deterministic ==>
          start == RangeStart(thread, |s.call.input|, s.Threads()) &&
          end == RangeEnd(thread, |s.call.input|, s.Threads()))
  }

  /** What worker `w` may be doing.  A worker past its idle wait holds the live
      descriptor of the current round, and that round is still open. */
  ghost predicate WorkerOk<V>(s: State<V>, w: nat)
    requires w < |s.workers|
  {
    match s.workers[w]
    case Idle => true
    case Recheck => s.available
    case Load => s.available
    case Start(r) => s.available && r == s.round
    case Claim(r) => s.available && r == s.round && !s.call.deterministic
    case Run(r, a, b, i) => s.available && r == s.round && SpanOk(s, w + 1, a, b) && a <= i <= b
    case Commit(r, a, b) => s.available && r == s.round && SpanOk(s, w + 1, a, b)
    case Ack(r) => s.available && r == s.round
    case WaitClear(r) => r <= s.round && (Before(s.main) ==> r < s.round)
    case Fault => false
  }

  ghost predicate MainOk<V>(s: State<V>)
  {
    match s.main
    case MClaim => !s.call.deterministic
    case MRun(a, b, i) => SpanOk(s, 0, a, b) && a <= i <= b
    case MCommit(a, b) => SpanOk(s, 0, a, b)
    case _ => true
  }

  ghost predicate WorkersOk<V>(s: State<V>)
  {
    && (forall w: nat :: w < |s.workers| ==> WorkerOk(s, w))
    && (s.main.ClearAvailable? ==> forall w: nat :: w < |s.workers| ==> s.workers[w] == WaitClear(s.round))
  }

  /** `workers_done` counts exactly the workers that acknowledged this round. */
  ghost predicate DoneOk<V>(s: State<V>)
  {
    s.main.Publish? || s.main.Signal? || Open(s.main) ==> s.done == Acks(s)
  }

  /** Each item is executed once, or owed by one thread, or still unclaimed. */
  ghost predicate ItemOk<V>(s: State<V>, i: nat)
    requires i < |s.hits| && FrameOk(s)
  {
    if Before(s.main) || Open(s.main) then
      s.hits[i] + MainOwes(s, i) + OwedByWorkers(s, i) + Unclaimed(s, i) == 1
    else if s.main.Solo? then s.hits[i] == (if i < s.main.item then 1 else 0)
    else s.hits[i] == 1
  }

  ghost predicate ValueOk<V>(s: State<V>, i: nat)
    requires i < |s.hits| == |s.out| == |s.call.input|
  {
    s.out[i] == if s.hits[i] == 0 then s.call.input[i] else s.call.func(i, s.call.input[i])
  }

  ghost predicate ItemsOk<V>(s: State<V>)
    requires FrameOk(s) && SharedOk(s)
  {
    && (forall i: nat :: i < |s.hits| ==> ItemOk(s, i))
    && (forall i: nat :: i < |s.hits| ==> ValueOk(s, i))
  }

  /** `completed` is the number of items in chunks already added to it. */
  ghost predicate CompletedOk<V>(s: State<V>)
    requires FrameOk(s)
  {
    Before(s.main) || Open(s.main) ==>
      s.frames[s.round].completed + MainUncommitted(s) + UncommittedByWorkers(s) + UnclaimedCount(s) == |s.call.input|
  }

  /** In stealing mode each thread overshoots `total_items` at most once. */
  ghost predicate CounterOk<V>(s: State<V>)
    requires FrameOk(s)
  {
    Live(s.main) && !s.call.deterministic ==>
      var f := s.frames[s.round];
      && (!s.main.ClearWork? ==>
            f.next < f.total + Slack(f.chunk, 1 + (if MainExited(s.main) then 1 else 0) + Exits(s)))
      && (MainExited(s.main) || s.main.ClearWork? ==> f.next >= f.total)
      && f.next < f.total + Slack(f.chunk, s.Threads() + 1)
  }

  /** `n` chunks. */
  function Slack(chunk: int, n: int): int { chunk * n }

  ghost predicate Inv<V>(s: State<V>)
  {
    && FrameOk(s)
    && SharedOk(s)
    && WorkersOk(s)
    && MainOk(s)
    && DoneOk(s)
    && ItemsOk(s)
    && CompletedOk(s)
    && CounterOk(s)
  }

  // ---------------------------------------------------------------- the ranges of deterministic mode

  /** Consecutive ranges meet, the first starts at 0 and the last ends at `total`. */
  lemma RangesMeet(thread: nat, total: nat, threads: nat)
    requires thread < threads
    ensures RangeStart(0, total, threads) == 0
    ensures RangeEnd(thread, total, threads) == RangeStart(thread + 1, total, threads)
    ensures RangeStart(thread, total, threads) <= RangeEnd(thread, total, threads)
    ensures RangeStart(threads, total, threads) == total
  {
    var q := total / threads;
    assert total == q * threads + total % threads;
    assert (thread + 1) * q == thread * q + q;
    assert threads * q == q * threads;
  }

  lemma {:induction false} RangesUp(a: nat, total: nat, threads: nat)
    requires a <= threads && threads > 0
    ensures 0 <= RangeStart(a, total, threads) <= total
    decreases threads - a
  {
    RangesMeet(0, total, threads);
    if a < threads {
      RangesMeet(a, total, threads);
      RangesUp(a + 1, total, threads);
    }
  }

  lemma RangeWithin(thread: nat, total: nat, threads: nat)
    requires thread < threads
    ensures 0 <= RangeStart(thread, total, threads) <= RangeEnd(thread, total, threads) <= total
  {
    RangesMeet(thread, total, threads);
    RangesUp(thread, total, threads);
    RangesUp(thread + 1, total, threads);
  }

  lemma {:induction false} RangesOrdered(t: nat, u: nat, total: nat, threads: nat)
    requires t < u <= threads
    ensures RangeEnd(t, total, threads) <= RangeStart(u, total, threads)
  {
    RangesMeet(t, total, threads);
    if t + 1 < u {
      RangesMeet(u - 1, total, threads);
      RangesOrdered(t, u - 1, total, threads);
    }
  }

  /** The thread among the first n whose range an item lies in. */
  lemma {:induction false} RangeOf<V>(s: State<V>, n: nat, i: int) returns (t: nat)
    requires 0 < n <= s.Threads() && 0 <= i < RangeStart(n, |s.call.input|, s.Threads())
    ensures t < n && InRange(s, t, i)
  {
    RangesMeet(n - 1, |s.call.input|, s.Threads());
    if i >= RangeStart(n - 1, |s.call.input|, s.Threads()) {
      t := n - 1;
    } else {
      t := RangeOf(s, n - 1, i);
    }
  }

  /** The ranges of all T threads, the main thread's being the first, contain every item of the
      call, nothing else, and no item twice. */
  lemma RangesPartition<V>(s: State<V>, i: int)
    ensures 0 <= i < |s.call.input| <==> exists t: nat :: t < s.Threads() && InRange(s, t, i)
    ensures forall t: nat, u: nat ::
              t < s.Threads() && u < s.Threads() && InRange(s, t, i) && InRange(s, u, i) ==> t == u
  {
    RangesMeet(0, |s.call.input|, s.Threads());
    if 0 <= i < |s.call.input| {
      var t := RangeOf(s, s.Threads(), i);
      assert InRange(s, t, i);
    }
    forall t: nat | t < s.Threads() && InRange(s, t, i) ensures 0 <= i < |s.call.input| {
      RangeWithin(t, |s.call.input|, s.Threads());
    }
    forall t: nat, u: nat | t < s.Threads() && u < s.Threads() && InRange(s, t, i) && InRange(s, u, i) ensures t == u {
      if t < u { RangesOrdered(t, u, |s.call.input|, s.Threads()); }
      if u < t { RangesOrdered(u, t, |s.call.input|, s.Threads()); }
    }
  }

  /** Counted over threads 1..n: the items between the first's start and the last's end, once each. */
  lemma {:induction false} RangesAddUp<V>(s: State<V>, n: nat, i: nat)
    requires n <= |s.workers|
    ensures Sum((w: nat) => if InRange(s, w + 1, i) then 1 else 0, n)
         == if RangeStart(1, |s.call.input|, s.Threads()) <= i < RangeStart(n + 1, |s.call.input|, s.Threads())
            then 1 else 0
    ensures Sum((w: nat) => RangeLength(s, w + 1), n)
         == RangeStart(n + 1, |s.call.input|, s.Threads()) - RangeStart(1, |s.call.input|, s.Threads())
    ensures RangeStart(1, |s.call.input|, s.Threads()) <= RangeStart(n + 1, |s.call.input|, s.Threads())
  {
    if n > 0 {
      RangesMeet(n, |s.call.input|, s.Threads());
      RangesAddUp(s, n - 1, i);
    }
  }

  // ---------------------------------------------------------------- sums after a step

  /** Moving one worker changes each sum by that worker's own contribution. */
  lemma WorkerMoved<V>(s: State<V>, t: State<V>, w: nat)
    requires |t.workers| == |s.workers|
    requires w < |s.workers| && t.workers == s.workers[w := t.workers[w]]
    requires t.round == s.round && t.call == s.call
    ensures forall i: int :: OwedByWorkers(t, i) == OwedByWorkers(s, i) - Owes(s, w, i) + Owes(t, w, i)
    ensures UncommittedByWorkers(t) == UncommittedByWorkers(s) - Uncommitted(s, w) + Uncommitted(t, w)
    ensures Acks(t) == Acks(s) - Acked(s, w) + Acked(t, w)
    ensures Exits(t) == Exits(s) - Exited(s, w) + Exited(t, w)
  {
    var n := |s.workers|;
    forall i: int
      ensures OwedByWorkers(t, i) == OwedByWorkers(s, i) - Owes(s, w, i) + Owes(t, w, i)
    {
      SumChange((v: nat) => Owes(s, v, i), (v: nat) => Owes(t, v, i), n, w);
    }
    SumChange((v: nat) => Uncommitted(s, v), (v: nat) => Uncommitted(t, v), n, w);
    SumChange((v: nat) => Acked(s, v), (v: nat) => Acked(t, v), n, w);
    SumChange((v: nat) => Exited(s, v), (v: nat) => Exited(t, v), n, w);
  }

  /** A step of the main thread leaves every worker's contribution alone. */
  lemma WorkersStill<V>(s: State<V>, t: State<V>)
    requires t.workers == s.workers && t.round == s.round && t.call == s.call
    ensures forall i: int :: OwedByWorkers(t, i) == OwedByWorkers(s, i)
    ensures UncommittedByWorkers(t) == UncommittedByWorkers(s)
    ensures Acks(t) == Acks(s) && Exits(t) == Exits(s)
  {
    var n := |s.workers|;
    forall i: int ensures OwedByWorkers(t, i) == OwedByWorkers(s, i) {
      SumSame((v: nat) => Owes(s, v, i), (v: nat) => Owes(t, v, i), n);
    }
    SumSame((v: nat) => Uncommitted(s, v), (v: nat) => Uncommitted(t, v), n);
    SumSame((v: nat) => Acked(s, v), (v: nat) => Acked(t, v), n);
    SumSame((v: nat) => Exited(s, v), (v: nat) => Exited(t, v), n);
  }

  /** The places that can owe an item: the shared counter, the main thread, one worker. */
  datatype Debtor = Counter | MainThread | OneWorker(w: nat)

  predicate OwedBy<V>(s: State<V>, d: Debtor, i: int)
    requires s.round in s.frames
  {
    match d
    case Counter => Unclaimed(s, i) == 1
    case MainThread => MainOwes(s, i) == 1
    case OneWorker(w) => Owes(s, w, i) == 1
  }

  /** Until a round is cleared, an item is executed once or not at all, it is owed exactly if it has
      not been executed, and then by one place only. */
  lemma OwedOnce<V>(s: State<V>, i: nat)
    requires Inv(s) && i < |s.hits| && (Before(s.main) || Open(s.main))
    ensures s.hits[i] <= 1
    ensures s.hits[i] == 0 <==> exists d: Debtor :: OwedBy(s, d, i)
    ensures forall d: Debtor, e: Debtor :: OwedBy(s, d, i) && OwedBy(s, e, i) ==> d == e
  {
    assert s.hits[i] + MainOwes(s, i) + OwedByWorkers(s, i) + Unclaimed(s, i) == 1 by { assert ItemOk(s, i); }
    OwersAdd(s, i);
    hide Inv, OwedByWorkers, MainOwes, Owes, Unclaimed, Before, Open;
    if s.hits[i] == 0 {
      var d := if Unclaimed(s, i) == 1 then Counter else if MainOwes(s, i) == 1 then MainThread
               else OneWorker(Ower(s, i));
      assert OwedBy(s, d, i);
    }
  }

  ghost function Ower<V>(s: State<V>, i: int): nat {
    if exists w: nat :: Owes(s, w, i) == 1 then var w: nat :| Owes(s, w, i) == 1; w else 0
  }

  /** The workers owe an item together once if one of them does, and never twice. */
  lemma OwersAdd<V>(s: State<V>, i: int)
    requires OwedByWorkers(s, i) <= 1 && s.round in s.frames
    ensures 0 <= MainOwes(s, i) <= 1 && 0 <= Unclaimed(s, i) <= 1
    ensures OwedByWorkers(s, i) == if Owes(s, Ower(s, i), i) == 1 then 1 else 0
    ensures forall w: nat :: Owes(s, w, i) == 1 ==> w == Ower(s, i)
  {
    var f, n := (v: nat) => Owes(s, v, i), |s.workers|;
    SumBounds(f, n, 0, 1);
    forall w: nat | Owes(s, w, i) == 1 ensures w == Ower(s, i) {
      var v := Ower(s, i);
      assert Owes(s, v, i) == 1 && v < n && w < n;
      if v < w { SumAtLeastTwo(f, n, v, w); }
      if w < v { SumAtLeastTwo(f, n, w, v); }
    }
    if w: nat :| Owes(s, w, i) == 1 {
      SumAtLeast(f, n, Ower(s, i));
    } else {
      SumBounds(f, n, 0, 0);
    }
  }

  // ---------------------------------------------------------------- every step keeps the invariant

  /** What a step of worker `w` has to show about itself: the books balance locally. */
  ghost predicate Balanced<V>(s: State<V>, t: State<V>, w: nat)
    requires FrameOk(s) && SharedOk(s) && w < |s.workers|
  {
    && |t.workers| == |s.workers| && t.workers == s.workers[w := t.workers[w]]
    && t.main == s.main && t.available == s.available && t.current == s.current
    && t.round == s.round && t.call == s.call && FrameOk(t)
    && WorkerOk(t, w) && (s.main.ClearAvailable? ==> t.workers[w] == WaitClear(s.round))
    && t.done - s.done == (if Open(s.main) then Acked(t, w) - Acked(s, w) else 0)
    && |t.out| == |t.hits| == |t.call.input|
    && (Before(s.main) || Open(s.main) ==>
          && (forall i: nat :: i < |s.hits| ==>
                s.hits[i] + Owes(s, w, i) + Unclaimed(s, i) == t.hits[i] + Owes(t, w, i) + Unclaimed(t, i))
          && s.frames[s.round].completed + Uncommitted(s, w) + UnclaimedCount(s)
             == t.frames[t.round].completed + Uncommitted(t, w) + UnclaimedCount(t))
    && (!(Before(s.main) || Open(s.main)) ==> t.hits == s.hits)
  }

  lemma BalancedKeepsWorkers<V>(s: State<V>, t: State<V>, w: nat)
    requires Inv(s) && w < |s.workers| && Balanced(s, t, w)
    ensures WorkersOk(t)
  {
    forall v: nat | v < |s.workers| ensures WorkerOk(t, v) { assert WorkerOk(s, v); }
  }

  lemma BalancedKeepsSums<V>(s: State<V>, t: State<V>, w: nat)
    requires Inv(s) && w < |s.workers| && Balanced(s, t, w)
    ensures DoneOk(t) && CompletedOk(t)
    ensures forall i: nat :: i < |t.hits| ==> ItemOk(t, i)
  {
    WorkerMoved(s, t, w);
    assert Before(s.main) ==> Acked(t, w) == Acked(s, w) == 0 by { assert WorkerOk(s, w) && WorkerOk(t, w); }
    forall i: nat | i < |t.hits| ensures ItemOk(t, i) { assert ItemOk(s, i); }
  }

  lemma BalancedKeepsInv<V>(s: State<V>, t: State<V>, w: nat)
    requires Inv(s) && w < |s.workers| && Balanced(s, t, w)
    requires CounterOk(t)
    requires forall i: nat :: i < |t.hits| ==> ValueOk(t, i)
    ensures Inv(t)
  {
    BalancedKeepsWorkers(s, t, w);
    BalancedKeepsSums(s, t, w);
  }

  /** The overshoot bound only grows when a worker leaves the claiming loop. */
  lemma CounterKept<V>(s: State<V>, t: State<V>, w: nat)
    requires Inv(s) && w < |s.workers| && Balanced(s, t, w)
    requires Live(s.main) ==> t.frames[t.round].next == s.frames[s.round].next
    requires Live(s.main) && !s.main.ClearWork? ==> Exited(s, w) <= Exited(t, w)
    ensures CounterOk(t)
  {
    WorkerMoved(s, t, w);
    if Live(s.main) && !s.call.deterministic && !s.main.ClearWork? {
      ChunkPositive(s.call, s.Threads());
      hide Slack, ChunkOf, Exits, WorkersOk, ItemsOk, DoneOk, CompletedOk;
      var k := 1 + (if MainExited(s.main) then 1 else 0);
      MulMonotone(s.frames[s.round].chunk, k + Exits(s), k + Exits(t));
    }
  }

  lemma MulMonotone(c: int, a: int, b: int)
    requires c >= 0 && a <= b
    ensures Slack(c, a) <= Slack(c, b)
  {
  }

  lemma WaitingKeepsInv<V>(s: State<V>, w: nat)
    requires Inv(s) && w < |s.workers|
    requires var pc := s.workers[w]; pc.Idle? || pc.Recheck? || pc.Load? || pc.WaitClear? || pc.Ack?
    ensures Inv(StepWorker(s, w))
  {
    var t := StepWorker(s, w);
    assert WorkerOk(s, w);
    if t != s {
      assert Balanced(s, t, w);
      CounterKept(s, t, w);
      forall i: nat | i < |t.hits| ensures ValueOk(t, i) { assert ValueOk(s, i); }
      BalancedKeepsInv(s, t, w);
    }
  }

  lemma StartingKeepsInv<V>(s: State<V>, w: nat)
    requires Inv(s) && w < |s.workers| && s.workers[w].Start?
    ensures Inv(StepWorker(s, w))
  {
    var t := StepWorker(s, w);
    assert WorkerOk(s, w);
    RangeWithin(w + 1, |s.call.input|, s.Threads());
    assert Balanced(s, t, w);
    CounterKept(s, t, w);
    forall i: nat | i < |t.hits| ensures ValueOk(t, i) { assert ValueOk(s, i); }
    BalancedKeepsInv(s, t, w);
  }

  /** The arithmetic of one fetch-add: only a claim past the end needs one more unit of slack. */
  lemma ClaimArithmetic(next: int, total: nat, chunk: int, k: nat)
    requires chunk >= 1 && k >= 1 && next < total + Slack(chunk, k)
    ensures next >= total ==> next + chunk < total + Slack(chunk, k + 1)
    ensures next < total ==> next + chunk < total + Slack(chunk, k)
  {
    MulMonotone(chunk, 1, k);
    assert chunk * (k + 1) == chunk * k + chunk;
  }

  lemma ClaimingKeepsCounter<V>(s: State<V>, w: nat)
    requires Inv(s) && w < |s.workers| && s.workers[w].Claim?
    requires Balanced(s, StepWorker(s, w), w)
    ensures CounterOk(StepWorker(s, w))
  {
    var t := StepWorker(s, w);
    ClaimMoves(s, w);
    assert WorkerOk(s, w);
    ClaimExits(s, w);
    ExitsBounded(s);
    ExitsBounded(t);
    hide Inv, Balanced, StepWorker, Slack;
    var f := s.frames[s.round];
    var k := 1 + (if MainExited(s.main) then 1 else 0);
    ClaimArithmetic(f.next, f.total, f.chunk, k + Exits(s));
    MulMonotone(f.chunk, k + Exits(t), t.Threads() + 1);
  }

  /** What a claim changes: the counter, and whether this worker is still claiming. */
  lemma ClaimMoves<V>(s: State<V>, w: nat)
    requires Inv(s) && w < |s.workers| && s.workers[w].Claim?
    requires Balanced(s, StepWorker(s, w), w)
    ensures var t := StepWorker(s, w);
      && s.round in s.frames && t.round == s.round && t.round in t.frames && FrameOk(t)
      && Open(s.main) && !s.call.deterministic && t.main == s.main && t.call == s.call && t.Threads() == s.Threads()
    ensures var t, f := StepWorker(s, w), s.frames[s.round];
      && t.frames[t.round] == f.(next := f.next + f.chunk) && f.chunk >= 1
      && f.next < f.total + Slack(f.chunk, 1 + (if MainExited(s.main) then 1 else 0) + Exits(s))
      && (MainExited(s.main) ==> f.next >= f.total)
  {
    hide Slack, Exits, ItemsOk, CompletedOk, DoneOk, RangeStart, RangeEnd;
    assert WorkerOk(s, w);
    ChunkPositive(s.call, s.Threads());
    hide ChunkOf;
  }

  lemma ClaimExits<V>(s: State<V>, w: nat)
    requires w < |s.workers| && s.workers[w].Claim? && s.workers[w].work == s.round && s.round in s.frames
    ensures var f := s.frames[s.round];
      Exits(StepWorker(s, w)) == Exits(s) + (if f.next >= f.total then 1 else 0)
  {
    var t := StepWorker(s, w);
    SumChange((v: nat) => Exited(s, v), (v: nat) => Exited(t, v), |s.workers|, w);
  }

  lemma ExitsBounded<V>(s: State<V>)
    ensures 0 <= Exits(s) <= |s.workers|
  {
    SumBounds((v: nat) => Exited(s, v), |s.workers|, 0, 1);
  }

  lemma ClaimingBalances<V>(s: State<V>, w: nat)
    requires Inv(s) && w < |s.workers| && s.workers[w].Claim?
    ensures Balanced(s, StepWorker(s, w), w)
  {
    var t := StepWorker(s, w);
    assert WorkerOk(s, w);
    var f := s.frames[s.round];
    ChunkPositive(s.call, s.Threads());
    assert t.frames == s.frames[s.round := f.(next := f.next + f.chunk)];
    assert FrameOk(t);
    if f.next >= f.total {
      assert t.workers[w] == Ack(s.round);
    } else {
      assert t.workers[w] == Run(s.round, f.next, Min(f.next + f.chunk, f.total), f.next);
    }
    assert WorkerOk(t, w);
  }

  /** The chunk size of the stealing mode: the one asked for, or else the smallest with which a chunk for each
      thread is more than all items. */
  lemma ChunkCases<V>(c: Call<V>, threads: nat)
    requires threads > 0 && !c.deterministic
    ensures c.chunkSize > 0 ==> ChunkOf(c, threads) == c.chunkSize
    ensures c.chunkSize <= 0 ==>
      threads * (ChunkOf(c, threads) - 1) <= |c.input| < threads * ChunkOf(c, threads)
  {
    var share := |c.input| / threads;
    assert |c.input| == threads * share + |c.input| % threads;
    assert threads * (share + 1) == threads * share + threads;
  }

  lemma ChunkPositive<V>(c: Call<V>, threads: nat)
    requires threads > 0 && !c.deterministic
    ensures ChunkOf(c, threads) >= 1
  {
  }

  lemma ClaimingKeepsInv<V>(s: State<V>, w: nat)
    requires Inv(s) && w < |s.workers| && s.workers[w].Claim?
    ensures Inv(StepWorker(s, w))
  {
    var t := StepWorker(s, w);
    ClaimingBalances(s, w);
    ClaimingKeepsCounter(s, w);
    forall i: nat | i < |t.hits| ensures ValueOk(t, i) { assert ValueOk(s, i); }
    BalancedKeepsInv(s, t, w);
  }

  /** A step inside the work function: the item done is no longer owed. */
  lemma RunningBalances<V>(s: State<V>, w: nat)
    requires Inv(s) && w < |s.workers| && s.workers[w].Run?
    ensures var t := StepWorker(s, w);
      && Balanced(s, t, w) && Exited(s, w) == Exited(t, w) == 0
      && (Live(s.main) ==> t.frames[t.round].next == s.frames[s.round].next)
  {
    hide CounterOk, CompletedOk, ItemsOk, DoneOk;
    assert WorkerOk(s, w);
  }

  lemma RunningKeepsValues<V>(s: State<V>, w: nat)
    requires Inv(s) && w < |s.workers| && s.workers[w].Run?
    ensures var t := StepWorker(s, w);
      |t.hits| == |t.out| == |t.call.input| && forall i: nat :: i < |t.hits| ==> ValueOk(t, i)
  {
    var t, item := StepWorker(s, w), s.workers[w].item;
    assert WorkerOk(s, w);
    if item < s.workers[w].end {
      OwedOnce(s, item);
      assert OwedBy(s, OneWorker(w), item);
    }
    hide CounterOk, CompletedOk, DoneOk, WorkersOk;
    forall i: nat | i < |t.hits| ensures ValueOk(t, i) { assert ValueOk(s, i); }
  }

  lemma RunningKeepsInv<V>(s: State<V>, w: nat)
    requires Inv(s) && w < |s.workers| && s.workers[w].Run?
    ensures Inv(StepWorker(s, w))
  {
    RunningBalances(s, w);
    RunningKeepsValues(s, w);
    hide StepWorker, Balanced;
    var t := StepWorker(s, w);
    CounterKept(s, t, w);
    BalancedKeepsInv(s, t, w);
  }

  lemma CommittingKeepsInv<V>(s: State<V>, w: nat)
    requires Inv(s) && w < |s.workers| && s.workers[w].Commit?
    ensures Inv(StepWorker(s, w))
  {
    var t := StepWorker(s, w);
    assert WorkerOk(s, w);
    assert Balanced(s, t, w);
    CounterKept(s, t, w);
    forall i: nat | i < |t.hits| ensures ValueOk(t, i) { assert ValueOk(s, i); }
    BalancedKeepsInv(s, t, w);
  }

  lemma WorkerKeepsInv<V>(s: State<V>, w: nat)
    requires Inv(s) && w < |s.workers|
    ensures Inv(StepWorker(s, w))
  {
    assert WorkerOk(s, w);
    match s.workers[w]
    case Start(_) => StartingKeepsInv(s, w);
    case Claim(_) => ClaimingKeepsInv(s, w);
    case Run(_, _, _, _) => RunningKeepsInv(s, w);
    case Commit(_, _, _) => CommittingKeepsInv(s, w);
    case _ => WaitingKeepsInv(s, w);
  }

  // ---------------------------------------------------------------- steps of the main thread

  /** A main step that leaves `work_available` and the workers alone needs only its own books balanced. */
  lemma MainBalancedKeepsInv<V>(s: State<V>, t: State<V>)
    requires Inv(s) && FrameOk(t) && SharedOk(t) && MainOk(t) && DoneOk(t) && CounterOk(t)
    requires t.workers == s.workers && t.round == s.round && t.call == s.call && t.available == s.available
    requires Before(s.main) == Before(t.main) && Open(s.main) == Open(t.main)
    requires Before(s.main) || Open(s.main)
    requires t.main.ClearAvailable? ==> forall w: nat :: w < |s.workers| ==> s.workers[w] == WaitClear(s.round)
    requires forall i: nat :: i < |s.hits| ==>
               s.hits[i] + MainOwes(s, i) + Unclaimed(s, i) == t.hits[i] + MainOwes(t, i) + Unclaimed(t, i)
    requires s.frames[s.round].completed + MainUncommitted(s) + UnclaimedCount(s)
          == t.frames[t.round].completed + MainUncommitted(t) + UnclaimedCount(t)
    requires forall i: nat :: i < |t.hits| ==> ValueOk(t, i)
    ensures Inv(t)
  {
    WorkersStill(s, t);
    forall v: nat | v < |s.workers| ensures WorkerOk(t, v) { assert WorkerOk(s, v); }
    forall i: nat | i < |t.hits| ensures ItemOk(t, i) { assert ItemOk(s, i); }
  }

  lemma PublishingKeepsInv<V>(s: State<V>)
    requires Inv(s) && (s.main.Reset? || s.main.Publish?)
    ensures Inv(StepMain(s))
  {
    var t := StepMain(s);
    WorkersStill(s, t);
    forall i: nat | i < |t.hits| ensures ValueOk(t, i) { assert ValueOk(s, i); }
    if s.main.Reset? {
      forall w: nat | w < |s.workers| ensures Acked(s, w) == 0 { assert WorkerOk(s, w); }
      SumBounds((w: nat) => Acked(s, w), |s.workers|, 0, 0);
    }
    MainBalancedKeepsInv(s, t);
  }

  lemma SignallingKeepsInv<V>(s: State<V>)
    requires Inv(s) && s.main.Signal?
    ensures Inv(StepMain(s))
  {
    var t := StepMain(s);
    WorkersStill(s, t);
    RangesMeet(0, |s.call.input|, s.Threads());
    RangeWithin(0, |s.call.input|, s.Threads());
    forall i: nat | i < |t.hits| ensures ItemOk(t, i) && ValueOk(t, i) { assert ItemOk(s, i) && ValueOk(s, i); }
    forall v: nat | v < |s.workers| ensures WorkerOk(t, v) { assert WorkerOk(s, v); }
  }

  lemma MainClaimingKeepsInv<V>(s: State<V>)
    requires Inv(s) && s.main.MClaim?
    ensures Inv(StepMain(s))
  {
    var t := StepMain(s);
    var f := s.frames[s.round];
    WorkersStill(s, t);
    ChunkPositive(s.call, s.Threads());
    ExitsBounded(s);
    ClaimArithmetic(f.next, f.total, f.chunk, 1 + Exits(s));
    MulMonotone(f.chunk, (if MainExited(t.main) then 2 else 1) + Exits(s), s.Threads() + 1);
    assert t.frames == s.frames[s.round := f.(next := f.next + f.chunk)];
    forall i: nat | i < |t.hits| ensures ValueOk(t, i) { assert ValueOk(s, i); }
    MainBalancedKeepsInv(s, t);
  }

  lemma MainRunningKeepsInv<V>(s: State<V>)
    requires Inv(s) && s.main.MRun?
    ensures Inv(StepMain(s))
  {
    var t := StepMain(s);
    WorkersStill(s, t);
    if s.main.item < s.main.end {
      OwedOnce(s, s.main.item);
      assert OwedBy(s, MainThread, s.main.item);
    }
    forall i: nat | i < |t.hits| ensures ValueOk(t, i) { assert ValueOk(s, i); }
    MainBalancedKeepsInv(s, t);
  }

  lemma MainCommittingKeepsInv<V>(s: State<V>)
    requires Inv(s) && (s.main.MCommit? || s.main.AwaitItems?)
    ensures Inv(StepMain(s))
  {
    var t := StepMain(s);
    WorkersStill(s, t);
    hide Acks, Exits, UncommittedByWorkers, OwedByWorkers, Slack, WorkerOk;
    forall i: nat | i < |t.hits| ensures ValueOk(t, i) { assert ValueOk(s, i); }
    MainBalancedKeepsInv(s, t);
  }

  lemma AllAcked<V>(s: State<V>)
    requires Acks(s) >= |s.workers|
    ensures forall w: nat :: w < |s.workers| ==> s.workers[w] == WaitClear(s.round)
  {
    var acked := (w: nat) => Acked(s, w);
    SumFull(acked, |s.workers|);
    forall w: nat | w < |s.workers| ensures s.workers[w] == WaitClear(s.round) { assert acked(w) == 1; }
  }

  lemma AwaitingWorkersKeepsInv<V>(s: State<V>)
    requires Inv(s) && s.main.AwaitWorkers?
    ensures Inv(StepMain(s))
  {
    var t := StepMain(s);
    if t != s {
      WorkersStill(s, t);
      AllAcked(s);
      forall i: nat | i < |t.hits| ensures ValueOk(t, i) { assert ValueOk(s, i); }
      MainBalancedKeepsInv(s, t);
    }
  }

  /** Once every worker has acknowledged, nothing is owed: every item has been executed once. */
  lemma AllExecuted<V>(s: State<V>)
    requires Inv(s) && s.main.ClearAvailable?
    ensures forall i: nat :: i < |s.hits| ==> s.hits[i] == 1
  {
    forall i: nat | i < |s.hits| ensures s.hits[i] == 1 {
      assert ItemOk(s, i);
      SumBounds((w: nat) => Owes(s, w, i), |s.workers|, 0, 0);
    }
  }

  lemma ClearingKeepsInv<V>(s: State<V>)
    requires Inv(s) && (s.main.ClearAvailable? || s.main.ClearWork?)
    ensures Inv(StepMain(s))
  {
    var t := StepMain(s);
    if s.main.ClearAvailable? { AllExecuted(s); }
    forall i: nat | i < |t.hits| ensures ItemOk(t, i) && ValueOk(t, i) { assert ItemOk(s, i) && ValueOk(s, i); }
    forall v: nat | v < |s.workers| ensures WorkerOk(t, v) { assert WorkerOk(s, v); }
  }

  lemma SoloKeepsInv<V>(s: State<V>)
    requires Inv(s) && (s.main.Solo? || s.main.Outside?)
    ensures Inv(StepMain(s))
  {
    var t := StepMain(s);
    if s.main.Solo? {
      forall i: nat | i < |t.hits| ensures ItemOk(t, i) && ValueOk(t, i) { assert ItemOk(s, i) && ValueOk(s, i); }
    }
  }

  lemma MainKeepsInv<V>(s: State<V>)
    requires Inv(s)
    ensures Inv(StepMain(s))
  {
    match s.main
    case Outside => SoloKeepsInv(s);
    case Solo(_) => SoloKeepsInv(s);
    case Reset => PublishingKeepsInv(s);
    case Publish => PublishingKeepsInv(s);
    case Signal => SignallingKeepsInv(s);
    case MClaim => MainClaimingKeepsInv(s);
    case MRun(_, _, _) => MainRunningKeepsInv(s);
    case MCommit(_, _) => MainCommittingKeepsInv(s);
    case AwaitItems => MainCommittingKeepsInv(s);
    case AwaitWorkers => AwaitingWorkersKeepsInv(s);
    case ClearAvailable => ClearingKeepsInv(s);
    case ClearWork => ClearingKeepsInv(s);
  }

  /** At the start of a round every item is owed once: by a thread's range or by the counter. */
  lemma FreshRoundOwes<V>(t: State<V>, i: nat)
    requires i < |t.call.input| && t.main.Reset? && FrameOk(t) && t.frames[t.round].next == 0
    requires forall w: nat :: w < |t.workers| ==> Unstarted(t, w)
    ensures MainOwes(t, i) + OwedByWorkers(t, i) + Unclaimed(t, i) == 1
  {
    var n := |t.workers|;
    forall w: nat | w < n ensures Owes(t, w, i) == if t.call.deterministic && InRange(t, w + 1, i) then 1 else 0 {
      assert Unstarted(t, w);
    }
    if t.call.deterministic {
      RangesAddUp(t, n, i);
      RangesMeet(0, |t.call.input|, t.Threads());
      SumSame((w: nat) => Owes(t, w, i), (w: nat) => if InRange(t, w + 1, i) then 1 else 0, n);
    } else {
      SumBounds((w: nat) => Owes(t, w, i), n, 0, 0);
    }
  }

  lemma FreshRoundUncommitted<V>(t: State<V>)
    requires t.main.Reset? && FrameOk(t) && t.frames[t.round].next == 0
    requires forall w: nat :: w < |t.workers| ==> Unstarted(t, w)
    ensures MainUncommitted(t) + UncommittedByWorkers(t) + UnclaimedCount(t) == |t.call.input|
  {
    var n := |t.workers|;
    forall w: nat | w < n ensures Uncommitted(t, w) == if t.call.deterministic then RangeLength(t, w + 1) else 0 {
      assert Unstarted(t, w);
    }
    if t.call.deterministic {
      RangesAddUp(t, n, 0);
      RangesMeet(0, |t.call.input|, t.Threads());
      SumSame((w: nat) => Uncommitted(t, w), (w: nat) => RangeLength(t, w + 1), n);
    } else {
      SumBounds((w: nat) => Uncommitted(t, w), n, 0, 0);
    }
  }

  lemma BeginKeepsInv<V>(s: State<V>, c: Call<V>)
    requires Inv(s) && s.main.Outside?
    ensures Inv(BeginCall(s, c))
  {
    var t := BeginCall(s, c);
    forall w: nat | w < |s.workers| ensures WorkerOk(t, w) && Unstarted(t, w) { assert WorkerOk(s, w); }
    if |s.workers| > 0 {
      ExitsBounded(t);
      if !c.deterministic {
        ChunkPositive(c, s.Threads());
        MulMonotone(ChunkOf(c, s.Threads()), 1, 1 + Exits(t));
        MulMonotone(ChunkOf(c, s.Threads()), 1, t.Threads() + 1);
      }
      FreshRoundUncommitted(t);
      forall i: nat | i < |t.hits| ensures ItemOk(t, i) && ValueOk(t, i) { FreshRoundOwes(t, i); }
    }
  }

  // ---------------------------------------------------------------- main results

  lemma InitInv<V>(threads: nat, idle: Call<V>)
    requires threads > 0 && idle.input == []
    ensures Inv(Init(threads, idle))
  {
  }

  lemma StepKeepsInv<V>(s: State<V>, e: Event<V>)
    requires Inv(s)
    ensures Inv(Step(s, e))
  {
    match e
    case WorkerStep(w) => if w < |s.workers| { WorkerKeepsInv(s, w); }
    case MainStep => MainKeepsInv(s);
    case Begin(c) => if s.main == Outside { BeginKeepsInv(s, c); }
  }

  lemma {:induction false} ExecKeepsInv<V>(s: State<V>, schedule: seq<Event<V>>)
    requires Inv(s)
    ensures Inv(Exec(s, schedule)) && |Exec(s, schedule).workers| == |s.workers|
    decreases |schedule|
  {
    if schedule != [] {
      StepKeepsInv(s, schedule[0]);
      StepKeepsThreads(s, schedule[0]);
      ExecKeepsInv(Step(s, schedule[0]), schedule[1..]);
    }
  }

  lemma OnlyWorkerMoves<V>(s: State<V>, w: nat)
    requires w < |s.workers|
    ensures var t := StepWorker(s, w);
      && |t.workers| == |s.workers| && t.workers == s.workers[w := t.workers[w]]
      && t.main == s.main && t.round == s.round && t.call == s.call
  {
    hide RangeStart, RangeEnd, Min;
  }

  lemma StepKeepsThreads<V>(s: State<V>, e: Event<V>)
    ensures |Step(s, e).workers| == |s.workers|
  {
    MainKeepsThreads(s);
    hide StepMain;
  }

  lemma MainKeepsThreads<V>(s: State<V>)
    ensures |StepMain(s).workers| == |s.workers|
  {
  }
}
