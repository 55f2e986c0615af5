/** The spinning phase barrier `barrier_wait`, used again and again by the same T threads. */
module Barrier {
  import opened Sums

  datatype Pc =
    | Outside              // between two calls
    | ReadPhase            // just entered, about to read barrier_phase
    | Arrive(phase: nat)   // about to increment barrier_count
    | ResetCount           // last to arrive, about to zero barrier_count
    | Release              // about to increment barrier_phase
    | Spin(phase: nat)     // waiting for barrier_phase to differ

  /** `entered` and `left` count the calls of a thread that have begun and returned. */
  datatype Thread = Thread(pc: Pc, entered: nat, left: nat)

  datatype State = State(threads: seq<Thread>, count: int, phase: nat)

  function Init(n: nat): State
  {
    State(seq(n, _ => Thread(Outside, 0, 0)), 0, 0)
  }

  function Leave(t: Thread): Thread { Thread(Outside, t.entered, t.left + 1) }

  /** One atomic step of thread `i`; a thread outside the barrier calls it again. */
  function Step(s: State, i: nat): State
  {
    if i >= |s.threads| then s
    else
      var t := s.threads[i];
      match t.pc
      case Outside => s.(threads := s.threads[i := Thread(ReadPhase, t.entered + 1, t.left)])
      case ReadPhase => s.(threads := s.threads[i := t.(pc := Arrive(s.phase))])
      case Arrive(p) =>
        s.(count := s.count + 1,
           threads := s.threads[i := t.(pc := if s.count + 1 == |s.threads| then ResetCount else Spin(p))])
      case ResetCount => s.(count := 0, threads := s.threads[i := t.(pc := Release)])
      case Release => s.(phase := s.phase + 1, threads := s.threads[i := Leave(t)])
      case Spin(p) => if s.phase == p then s else s.(threads := s.threads[i := Leave(t)])
  }

  function Exec(s: State, schedule: seq<nat>): State
    decreases |schedule|
  {
    if schedule == [] then s else Exec(Step(s, schedule[0]), schedule[1..])
  }

  // ---------------------------------------------------------------- invariant

  /** Thread `i` has arrived in the current phase and not left. */
  function Arrived(s: State, i: nat): int
  {
    if i < |s.threads| && (s.threads[i].pc == Spin(s.phase) || s.threads[i].pc.ResetCount? || s.threads[i].pc.Release?)
    then 1 else 0
  }

  ghost function Arrivals(s: State): int { Sum((i: nat) => Arrived(s, i), |s.threads|) }

  predicate Leads(t: Thread) { t.pc.ResetCount? || t.pc.Release? }

  /** A thread's own record: only a thread still spinning on the previous phase is one call behind. */
  predicate ThreadOk(s: State, t: Thread)
  {
    && t.entered == t.left + (if t.pc.Outside? then 0 else 1)
    && match t.pc
       case Outside => t.left == s.phase
       case ReadPhase => t.left == s.phase
       case Arrive(p) => t.left == s.phase == p
       case ResetCount => t.left == s.phase && s.count == |s.threads|
       case Release => t.left == s.phase && s.count == 0
       case Spin(p) => t.left == p && (p == s.phase || p + 1 == s.phase)
  }

  ghost predicate Inv(s: State)
  {
    && (forall i: nat :: i < |s.threads| ==> ThreadOk(s, s.threads[i]))
    && (forall i: nat, j: nat :: i < |s.threads| && j < |s.threads| && i != j && Leads(s.threads[i])
          ==> s.threads[j].pc == Spin(s.phase))
    && ((forall i: nat :: i < |s.threads| ==> !s.threads[i].pc.Release?) ==> s.count == Arrivals(s))
    && ((forall i: nat :: i < |s.threads| ==> !Leads(s.threads[i])) ==> |s.threads| == 0 || s.count < |s.threads|)
  }

  lemma ArrivalsMoved(s: State, t: State, i: nat)
    requires |t.threads| == |s.threads| && t.phase == s.phase
    requires i < |s.threads| && t.threads == s.threads[i := t.threads[i]]
    ensures Arrivals(t) == Arrivals(s) - Arrived(s, i) + Arrived(t, i)
  {
    SumChange((j: nat) => Arrived(s, j), (j: nat) => Arrived(t, j), |s.threads|, i);
  }

  /** When all T threads but possibly one have arrived, the rest are spinning. */
  lemma LastArrival(s: State, i: nat)
    requires Inv(s) && i < |s.threads| && s.threads[i].pc.Arrive? && s.count + 1 == |s.threads|
    ensures forall j: nat :: j < |s.threads| && j != i ==> s.threads[j].pc == Spin(s.phase)
  {
    forall j: nat | j < |s.threads| ensures !Leads(s.threads[j]) {}
    var f := (j: nat) => Arrived(s, j);
    var g := (j: nat) => if j == i then 1 else Arrived(s, j);
    SumChange(f, g, |s.threads|, i);
    SumFull(g, |s.threads|);
    forall j: nat | j < |s.threads| && j != i ensures s.threads[j].pc == Spin(s.phase) { assert g(j) == 1; }
  }

  lemma ArriveKeepsInv(s: State, i: nat)
    requires Inv(s) && i < |s.threads| && s.threads[i].pc.Arrive?
    ensures Inv(Step(s, i))
  {
    var t := Step(s, i);
    ArrivalsMoved(s, t, i);
    forall j: nat | j < |s.threads| ensures !Leads(s.threads[j]) {}
    if s.count + 1 == |s.threads| { LastArrival(s, i); }
  }

  lemma ReleaseKeepsInv(s: State, i: nat)
    requires Inv(s) && i < |s.threads| && s.threads[i].pc.Release?
    ensures Inv(Step(s, i))
  {
    var t := Step(s, i);
    forall j: nat | j < |s.threads| ensures ThreadOk(t, t.threads[j]) && Arrived(t, j) == 0 {
      assert ThreadOk(s, s.threads[j]);
    }
    SumBounds((j: nat) => Arrived(t, j), |t.threads|, 0, 0);
  }

  lemma StepKeepsInv(s: State, i: nat)
    requires Inv(s)
    ensures Inv(Step(s, i))
  {
    if i < |s.threads| {
      assert ThreadOk(s, s.threads[i]);
      if s.threads[i].pc.Arrive? {
        ArriveKeepsInv(s, i);
      } else if s.threads[i].pc.Release? {
        ReleaseKeepsInv(s, i);
      } else {
        ArrivalsMoved(s, Step(s, i), i);
        OthersKeepInv(s, i);
      }
    }
  }

  lemma OthersKeepInv(s: State, i: nat)
    requires Inv(s) && i < |s.threads| && !s.threads[i].pc.Arrive? && !s.threads[i].pc.Release?
    ensures Inv(Step(s, i))
  {
    var t := Step(s, i);
    ArrivalsMoved(s, t, i);
    assert ThreadOk(s, s.threads[i]);
    if s.threads[i].pc.ResetCount? {
      assert t.threads[i].pc.Release?;
    } else {
      forall j: nat | j < |s.threads| ensures Leads(t.threads[j]) == Leads(s.threads[j]) {}
    }
  }

  lemma {:induction false} ExecKeepsInv(s: State, schedule: seq<nat>)
    requires Inv(s)
    ensures Inv(Exec(s, schedule)) && |Exec(s, schedule).threads| == |s.threads|
    decreases |schedule|
  {
    if schedule != [] {
      StepKeepsInv(s, schedule[0]);
      ExecKeepsInv(Step(s, schedule[0]), schedule[1..]);
    }
  }

  lemma InitInv(n: nat)
    ensures Inv(Init(n))
  {
    SumBounds((i: nat) => Arrived(Init(n), i), n, 0, 0);
  }

  // ---------------------------------------------------------------- main results

  /** Whatever the schedule, no thread has left more barriers than any other has entered,
      and no two threads are more than one phase apart. */
  lemma BarrierSafety(n: nat, schedule: seq<nat>, a: nat, b: nat)
    requires a < n && b < n
    ensures var s := Exec(Init(n), schedule);
            && |s.threads| == n
            && s.threads[a].left <= s.threads[b].entered
            && s.threads[a].left <= s.threads[b].left + 1
            && s.threads[a].entered <= s.threads[b].entered + 1
  {
    InitInv(n);
    ExecKeepsInv(Init(n), schedule);
    var s := Exec(Init(n), schedule);
    assert ThreadOk(s, s.threads[a]) && ThreadOk(s, s.threads[b]);
  }

  /** The threads are never all blocked: some step always changes the state. */
  lemma NeverBlocked(n: nat, schedule: seq<nat>) returns (i: nat)
    requires n > 0
    ensures var s := Exec(Init(n), schedule); i < n && Step(s, i) != s
  {
    InitInv(n);
    ExecKeepsInv(Init(n), schedule);
    var s := Exec(Init(n), schedule);
    if j: nat :| j < n && s.threads[j].pc != Spin(s.phase) {
      i := j;
      assert Step(s, i).threads[i] != s.threads[i];
    } else {
      i := 0;
      assert forall j: nat :: j < n ==> Arrived(s, j) == 1;
      SumBounds((j: nat) => Arrived(s, j), n, 1, 1);
    }
  }
}
