/**
 The scheduler's state: tasks, the queue of every resource, semaphore counts and the task that
 runs.  Everything a kernel call does up to the switch to another task is one step, on one
 processor.  Queues are the sequences that the linked lists stand for.
 */
module KernelState {

  datatype Option<T> = None | Some(value: T)

  /** A resource or task by its address; a task is a resource too. */
  type Rsrc = int
  type Task = int

  datatype Flag = Running | Ready | Waiting | Dead | SleepIrq

  const ERR_NONE := 0
  const ERR_RESOURCE := -2

  datatype State = State(queue: map<Rsrc, seq<Task>>, waitingOn: map<Task, Option<Rsrc>>, flags: map<Task, Flag>,
                         status: map<Task, int>, sems: map<Rsrc, int>, current: Task, live: int, halted: bool,
                         run: Rsrc, reaper: Rsrc, reaperSem: Rsrc, idle: Task)

  function Queue(st: State, r: Rsrc): seq<Task> { if r in st.queue then st.queue[r] else [] }
  function WaitsOn(st: State, t: Task): Option<Rsrc> { if t in st.waitingOn then st.waitingOn[t] else None }
  function FlagOf(st: State, t: Task): Flag { if t in st.flags then st.flags[t] else Dead }
  function Count(st: State, s: Rsrc): int { if s in st.sems then st.sems[s] else 0 }

  /** Every place of a queue holds a task that waits on that very resource; none twice, the idle task never. */
  ghost predicate QueuedAt(st: State, r: Rsrc, i: int) {
    0 <= i < |Queue(st, r)| ==>
      var t := Queue(st, r)[i];
      && t in st.flags && t != st.idle && WaitsOn(st, t) == Some(r)
      && (FlagOf(st, t) == Waiting || FlagOf(st, t) == Dead)
      && forall j :: 0 <= j < i ==> Queue(st, r)[j] != t
  }

  ghost predicate OnQueue(st: State, t: Task) {
    WaitsOn(st, t).Some? && t in Queue(st, WaitsOn(st, t).value)
  }

  /** A task is on the queue its waiting_on field names; or it is on none and runs, idles or sleeps until an
      interrupt. */
  ghost predicate Accounted(st: State, t: Task) {
    || OnQueue(st, t)
    || (WaitsOn(st, t) == None
        && (t == st.idle || FlagOf(st, t) == SleepIrq || (t == st.current && FlagOf(st, t) == Running)))
  }

  ghost predicate Tables(st: State) {
    && st.flags.Keys == st.waitingOn.Keys == st.status.Keys && st.flags.Keys <= st.queue.Keys
    && st.current in st.flags && st.idle in st.flags
    && st.run in st.queue && st.run !in st.flags && st.run !in st.sems
    && st.reaper in st.queue && st.reaper !in st.flags && st.reaper !in st.sems && st.reaper != st.run
    && st.reaperSem in st.sems && st.sems.Keys <= st.queue.Keys && st.sems.Keys !! st.flags.Keys
  }

  /** The invariant but for the running task and the semaphores. */
  ghost predicate Placed(st: State) {
    && Tables(st)
    && (forall r, i :: QueuedAt(st, r, i))
    && (forall t :: t in st.flags ==> Accounted(st, t))
  }

  function Waiters(count: int): nat { if count < 0 then -count else 0 }

  /** Every semaphore has as many tasks queued as its count is below zero. */
  ghost predicate SemsAgree(st: State) {
    forall s :: s in st.sems ==> |Queue(st, s)| == Waiters(st.sems[s])
  }

  /** The invariant between steps. */
  ghost predicate Stable(st: State) {
    Placed(st) && SemsAgree(st) && FlagOf(st, st.current) == Running && WaitsOn(st, st.current) == None
  }

  /** No task is on two queues, or twice on one; nor is the running task on any. */
  lemma OneQueue(st: State, r: Rsrc, i: nat, q: Rsrc, j: nat)
    requires Stable(st) && i < |Queue(st, r)| && j < |Queue(st, q)|
    ensures Queue(st, r)[i] == Queue(st, q)[j] ==> r == q && i == j
    ensures Queue(st, r)[i] != st.current && Queue(st, r)[i] != st.idle
  {
    assert QueuedAt(st, r, i) && QueuedAt(st, q, j);
  }

  /* What the kernel's functions do to the state. */

  function Enqueue(st: State, r: Rsrc, t: Task): State {
    st.(queue := st.queue[r := Queue(st, r) + [t]], flags := st.flags[t := Waiting],
      waitingOn := st.waitingOn[t := Some(r)])
  }

  /** The head of the queue is taken off and made ready. */
  function Dequeue(st: State, r: Rsrc): State
    requires Queue(st, r) != []
  {
    var t := Queue(st, r)[0];
    st.(queue := st.queue[r := Queue(st, r)[1..]], flags := st.flags[t := Ready], waitingOn := st.waitingOn[t := None])
  }

  function DetachHead(st: State, r: Rsrc): State
    requires Queue(st, r) != []
  {
    st.(queue := st.queue[r := Queue(st, r)[1..]])
  }

  function TaskWake(st: State, t: Task, code: int): State {
    Enqueue(st.(status := st.status[t := code]), st.run, t)
  }

  function Resume(st: State, t: Task): State {
    st.(current := t, flags := st.flags[t := Running])
  }

  function Preempt(st: State, t: Task, code: int): State {
    var st1 := if st.current != st.idle then Enqueue(st, st.run, st.current) else st;
    Resume(st1.(status := st1.status[t := code]), t)
  }

  /** Gives the processor to the head of the run queue, or to the idle task; halts when no task lives. */
  function Swtch(st: State): State {
    var running := FlagOf(st, st.current) == Running;
    if Queue(st, st.run) == [] && running then st
    else
      var st1 := if running && st.current != st.idle then Enqueue(st, st.run, st.current) else st;
      if Queue(st1, st.run) != [] then Resume(Dequeue(st1, st.run), Queue(st1, st.run)[0])
      else if st.live != 0 then Resume(st1, st.idle)
      else st1.(halted := true)
  }

  function WaitOn(st: State, r: Rsrc): State {
    Swtch(Enqueue(st.(status := st.status[st.current := 0]), r, st.current))
  }

  /** Wakes all that wait on r, in order. */
  function WakeAll(st: State, r: Rsrc): State
    requires r != st.run
    decreases |Queue(st, r)|
  {
    if Queue(st, r) == [] then st
    else WakeAll(TaskWake(DetachHead(st, r), Queue(st, r)[0], ERR_RESOURCE), r)
  }

  function RsrcRelease(st: State, r: Rsrc): State
    requires r != st.run
  {
    var st1 := WakeAll(st, r);
    st1.(queue := st1.queue - {r}, sems := st1.sems - {r})
  }

  function AddCount(st: State, s: Rsrc, n: int): State { st.(sems := st.sems[s := Count(st, s) + n]) }

  function WakeReaper(st: State): State {
    var s := st.reaperSem;
    var st1 := AddCount(st, s, 1);
    if Queue(st1, s) == [] then st1 else TaskWake(Dequeue(st1, s), Queue(st1, s)[0], ERR_NONE)
  }

  /* The steps. */

  datatype Step =
    | SemCreate(s: Rsrc, count: int)
    | SemDestroy(s: Rsrc)
    | SemAcquire(s: Rsrc)
    | SemRelease(s: Rsrc)
    | ThrWait(task: Task)
    | Spawn(task: Task)
    | QueueCreate(r: Rsrc)
    | QueueDestroy(r: Rsrc)
    | Block(r: Rsrc)
    | WakeOne(r: Rsrc)
    | Yield
    | SleepForIrq
    | Irq(task: Task)
    | Terminate
    | Reap

  /** A resource that is not the scheduler's own, a semaphore or a task: a port or its queue of senders. */
  ghost predicate PlainQueue(st: State, r: Rsrc) {
    r in st.queue && r != st.run && r != st.reaper && r !in st.sems && r !in st.flags
  }

  /** What the kernel may be asked to do: new resources have new addresses, and the idle task never waits. */
  ghost predicate Allowed(st: State, step: Step) {
    match step
    case SemCreate(s, count) => s !in st.queue && count >= 0
    case SemDestroy(s) => s != st.reaperSem
    case SemAcquire(s) => st.current != st.idle
    case SemRelease(s) => true
    case ThrWait(t) => st.current != st.idle
    case Spawn(t) => t !in st.queue
    case QueueCreate(r) => r !in st.queue
    case QueueDestroy(r) => PlainQueue(st, r)
    case Block(r) => PlainQueue(st, r) && st.current != st.idle
    case WakeOne(r) => PlainQueue(st, r)
    case Yield => true
    case SleepForIrq => st.current != st.idle
    case Irq(t) => t in st.flags
    case Terminate => st.current != st.idle
    case Reap => Queue(st, st.reaper) != []
  }

  function Spawned(st: State, t: Task): State {
    var st1 := st.(queue := st.queue[t := []], flags := st.flags[t := Ready], waitingOn := st.waitingOn[t := None],
                   status := st.status[t := 0], live := st.live + 1);
    Enqueue(st1, st.run, t)
  }

  function Terminated(st: State): State
    requires st.current != st.run
  {
    var t := st.current;
    var st1 := Enqueue(st.(live := st.live - 1), st.reaper, t);
    var st2 := WakeAll(st1.(flags := st1.flags[t := Dead]), t);
    Swtch(WakeReaper(st2))
  }

  /** The reaper takes a dead task off its queue and destroys it. */
  function Reaped(st: State): State
    requires Queue(st, st.reaper) != [] && Queue(st, st.reaper)[0] != st.run
  {
    var t := Queue(st, st.reaper)[0];
    var st1 := RsrcRelease(Dequeue(st, st.reaper), t);
    st1.(flags := st1.flags - {t}, waitingOn := st1.waitingOn - {t}, status := st1.status - {t})
  }

  function Do(st: State, step: Step): State
    requires Allowed(st, step)
  {
    match step
    case SemCreate(s, count) => st.(queue := st.queue[s := []], sems := st.sems[s := count])
    case SemDestroy(s) => if s in st.sems && s != st.run then RsrcRelease(st, s) else st
    case SemAcquire(s) =>
      if s !in st.sems then st
      else if st.sems[s] > 0 then AddCount(st, s, -1)
      else WaitOn(AddCount(st, s, -1), s)
    case SemRelease(s) =>
      if s !in st.sems then st
      else
        var st1 := AddCount(st, s, 1);
        if Queue(st1, s) == [] then st1 else Preempt(Dequeue(st1, s), Queue(st1, s)[0], ERR_NONE)
    case ThrWait(t) => if t in st.flags then WaitOn(st, t) else st
    case Spawn(t) => Spawned(st, t)
    case QueueCreate(r) => st.(queue := st.queue[r := []])
    case QueueDestroy(r) => RsrcRelease(st, r)
    case Block(r) => WaitOn(st, r)
    case WakeOne(r) => if Queue(st, r) == [] then st else TaskWake(Dequeue(st, r), Queue(st, r)[0], ERR_NONE)
    case Yield => Swtch(st)
    case SleepForIrq => Swtch(st.(flags := st.flags[st.current := SleepIrq]))
    case Irq(t) => if FlagOf(st, t) == SleepIrq then Preempt(st, t, ERR_NONE) else st
    case Terminate => if st.current != st.run then Terminated(st) else st
    case Reap => if Queue(st, st.reaper)[0] != st.run then Reaped(st) else st
  }
}
