/**
 The counting semaphore of openblt/lib/libc/qsem.c: an atomic counter in front of a kernel
 semaphore that is used only when the counter says so.  Any number of threads take turns in
 any order; each atomic_add and each kernel call is one step.
 */
module Qsem {

  type Thread = int

  /** Where a thread is: outside, between the counter and the kernel, on the kernel's queue, or holding. */
  datatype Place = Outside | Acquiring | Queued | Holding | Releasing

  datatype State = State(count: int, kernel: int, queue: seq<Thread>, at: map<Thread, Place>)

  function PlaceOf(st: State, t: Thread): Place { if t in st.at then st.at[t] else Outside }

  datatype Step = AddMinusOne(t: Thread) | SemAcquire(t: Thread) | AddOne(t: Thread) | SemRelease(t: Thread)

  ghost predicate Enabled(st: State, step: Step) {
    match step
    case AddMinusOne(t) => PlaceOf(st, t) == Outside
    case SemAcquire(t) => PlaceOf(st, t) == Acquiring
    case AddOne(t) => PlaceOf(st, t) == Holding
    case SemRelease(t) => PlaceOf(st, t) == Releasing
  }

  function Move(st: State, t: Thread, p: Place): State { st.(at := st.at[t := p]) }

  function Do(st: State, step: Step): State {
    match step
    case AddMinusOne(t) => Move(st.(count := st.count - 1), t, if st.count <= 0 then Acquiring else Holding)
    case SemAcquire(t) =>
      if st.kernel > 0 then Move(st.(kernel := st.kernel - 1), t, Holding)
      else Move(st.(kernel := st.kernel - 1, queue := st.queue + [t]), t, Queued)
    case AddOne(t) => Move(st.(count := st.count + 1), t, if st.count < 0 then Releasing else Outside)
    case SemRelease(t) =>
      var st1 := Move(st.(kernel := st.kernel + 1), t, Outside);
      if st.queue == [] then st1 else Move(st1.(queue := st.queue[1..]), st.queue[0], Holding)
  }

  function Create(n: nat): State { State(n, 0, [], map[]) }

  ghost function In(st: State, p: Place): set<Thread> { set t | t in st.at && st.at[t] == p }

  function Positive(n: int): nat { if n > 0 then n else 0 }

  /** Threads past the counter that do not hold yet. */
  ghost function Pending(st: State): nat { |In(st, Acquiring)| + |In(st, Queued)| }

  /** Permits on their way: releases the kernel has still to see, and those it has seen that nobody took. */
  ghost function Tokens(st: State): nat { |In(st, Releasing)| + Positive(st.kernel) }

  ghost predicate Valid(st: State, n: nat) {
    && (forall i, j :: 0 <= i < j < |st.queue| ==> st.queue[i] != st.queue[j])
    && (forall t :: t in st.queue <==> PlaceOf(st, t) == Queued)
    && |st.queue| == Positive(-st.kernel)
    && |In(st, Holding)| + Pending(st) + st.count == n
    && Pending(st) == Tokens(st) + Positive(-st.count)
  }

  lemma Moved(st: State, t: Thread, p: Place, q: Place)
    requires p != Outside && q == PlaceOf(st, t) && p != q
    ensures var st1 := Move(st, t, p);
            && In(st1, p) == In(st, p) + {t} && |In(st1, p)| == |In(st, p)| + 1
            && (q != Outside ==> In(st1, q) == In(st, q) - {t} && |In(st1, q)| == |In(st, q)| - 1)
            && forall r :: r != p && r != q && r != Outside ==> In(st1, r) == In(st, r)
  {
    var st1 := Move(st, t, p);
    assert In(st1, p) == In(st, p) + {t};
    if q != Outside {
      assert In(st1, q) == In(st, q) - {t};
    }
    forall r | r != p && r != q && r != Outside ensures In(st1, r) == In(st, r) {
      assert forall x :: x in In(st1, r) <==> x in In(st, r);
    }
  }

  lemma MovedOut(st: State, t: Thread, q: Place)
    requires q == PlaceOf(st, t) && q != Outside
    ensures var st1 := Move(st, t, Outside);
            && In(st1, q) == In(st, q) - {t} && |In(st1, q)| == |In(st, q)| - 1
            && forall r :: r != q && r != Outside ==> In(st1, r) == In(st, r)
  {
    var st1 := Move(st, t, Outside);
    assert In(st1, q) == In(st, q) - {t};
    forall r | r != q && r != Outside ensures In(st1, r) == In(st, r) {
      assert forall x :: x in In(st1, r) <==> x in In(st, r);
    }
  }

  /** Only places matter for counting. */
  lemma SameIn(st: State, st1: State)
    requires st.at == st1.at
    ensures forall p :: In(st, p) == In(st1, p)
  {
  }

  lemma StepKeeps(st: State, n: nat, step: Step)
    requires Valid(st, n) && Enabled(st, step)
    ensures Valid(Do(st, step), n)
  {
    match step {
      case AddMinusOne(t) => AddMinusOneKeeps(st, n, t);
      case SemAcquire(t) => SemAcquireKeeps(st, n, t);
      case AddOne(t) => AddOneKeeps(st, n, t);
      case SemRelease(t) => SemReleaseKeeps(st, n, t);
    }
  }

  lemma AddMinusOneKeeps(st: State, n: nat, t: Thread)
    requires Valid(st, n) && PlaceOf(st, t) == Outside
    ensures Valid(Do(st, AddMinusOne(t)), n)
  {
    hide In;
    var st1 := st.(count := st.count - 1);
    SameIn(st, st1);
    Moved(st1, t, if st.count <= 0 then Acquiring else Holding, Outside);
  }

  lemma SemAcquireKeeps(st: State, n: nat, t: Thread)
    requires Valid(st, n) && PlaceOf(st, t) == Acquiring
    ensures Valid(Do(st, SemAcquire(t)), n)
  {
    hide In;
    var st1 := if st.kernel > 0 then st.(kernel := st.kernel - 1)
      else st.(kernel := st.kernel - 1, queue := st.queue + [t]);
    SameIn(st, st1);
    Moved(st1, t, if st.kernel > 0 then Holding else Queued, Acquiring);
  }

  lemma AddOneKeeps(st: State, n: nat, t: Thread)
    requires Valid(st, n) && PlaceOf(st, t) == Holding
    ensures Valid(Do(st, AddOne(t)), n)
  {
    hide In;
    var st1 := st.(count := st.count + 1);
    SameIn(st, st1);
    if st.count < 0 {
      Moved(st1, t, Releasing, Holding);
    } else {
      MovedOut(st1, t, Holding);
    }
  }

  lemma SemReleaseKeeps(st: State, n: nat, t: Thread)
    requires Valid(st, n) && PlaceOf(st, t) == Releasing
    ensures Valid(Do(st, SemRelease(t)), n)
  {
    hide In;
    var st0 := st.(kernel := st.kernel + 1);
    SameIn(st, st0);
    MovedOut(st0, t, Releasing);
    var st1 := Move(st0, t, Outside);
    if st.queue != [] {
      var st2 := st1.(queue := st.queue[1..]);
      SameIn(st1, st2);
      assert st.queue[0] in st.queue;
      Moved(st2, st.queue[0], Holding, Queued);
      HeadOnce(st.queue);
    }
  }

  lemma HeadOnce(q: seq<Thread>)
    requires q != [] && forall i, j :: 0 <= i < j < |q| ==> q[i] != q[j]
    ensures forall t :: t in q[1..] <==> t in q && t != q[0]
  {
    forall t | t in q && t != q[0] ensures t in q[1..] {
      var i :| 0 <= i < |q| && q[i] == t;
      assert q[1..][i - 1] == t;
    }
  }

  lemma CreateValid(n: nat)
    ensures Valid(Create(n), n)
  {
    var st := Create(n);
    assert forall p :: In(st, p) == {};
  }

  ghost predicate Run(states: seq<State>, steps: seq<Step>) {
    && |states| == |steps| + 1
    && forall i :: 0 <= i < |steps| ==> Enabled(states[i], steps[i]) && states[i + 1] == Do(states[i], steps[i])
  }

  lemma {:induction false} RunValid(states: seq<State>, steps: seq<Step>, n: nat, i: nat)
    requires Run(states, steps) && states[0] == Create(n) && i <= |steps|
    ensures Valid(states[i], n)
  {
    hide Valid, Do, Enabled, Create;
    if i == 0 {
      CreateValid(n);
    } else {
      RunValid(states, steps, n, i - 1);
      StepKeeps(states[i - 1], n, steps[i - 1]);
    }
  }

  /** Permits are never lost or made up: held, on their way, or still in the counter, there are always n. */
  lemma PermitsConserved(states: seq<State>, steps: seq<Step>, n: nat, i: nat)
    requires Run(states, steps) && states[0] == Create(n) && i <= |steps|
    ensures |In(states[i], Holding)| + Tokens(states[i]) + Positive(states[i].count) == n
    ensures |In(states[i], Holding)| <= n
  {
    RunValid(states, steps, n, i);
  }

  /**
   No thread is stranded on the kernel's queue: with no release under way, every permit is held;
   and once the counter shows none missing, there is a release under way for each waiting thread.
   */
  lemma NobodyStranded(states: seq<State>, steps: seq<Step>, n: nat, i: nat)
    requires Run(states, steps) && states[0] == Create(n) && i <= |steps|
    requires states[i].queue != []
    ensures In(states[i], Releasing) == {} ==> |In(states[i], Holding)| == n && states[i].count < 0
    ensures states[i].count >= 0 ==> |In(states[i], Acquiring)| + |In(states[i], Queued)| == |In(states[i], Releasing)|
  {
    RunValid(states, steps, n, i);
    QueuedCounted(states[i], n);
  }

  lemma QueuedCounted(st: State, n: nat)
    requires Valid(st, n) && st.queue != []
    ensures |In(st, Queued)| > 0
  {
    assert st.queue[0] in st.queue;
    assert st.queue[0] in In(st, Queued);
  }
}
