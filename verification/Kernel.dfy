/**
 The scheduling functions of openblt/kernel, in place on the kernel's tables: resource.c,
 task.c, kernel.c, sem.c, syscall.c and fault.c.  Each does to the state what the function of
 the same name in KernelState says.
 */
module KernelFunctions {
  import opened KernelState
  import opened KernelSteps
  import KernelLaws

  class Kernel {
    var queue: map<Rsrc, seq<Task>>
    var waitingOn: map<Task, Option<Rsrc>>
    var flags: map<Task, Flag>
    var status: map<Task, int>
    var sems: map<Rsrc, int>
    var current: Task
    var liveTasks: int
    var halted: bool
    const runQueue: Rsrc
    const reaperQueue: Rsrc
    const reaperSem: Rsrc
    const idleTask: Task

    /** The state that the fields stand for. */
    function Now(): State
      reads this
    {
      State(queue, waitingOn, flags, status, sems, current, liveTasks, halted, runQueue, reaperQueue, reaperSem,
        idleTask)
    }

    /** go_kernel, up to the first task that runs, when there is no boot task: the reaper runs and the pager is next. */
    constructor (run: Rsrc, reaperQ: Rsrc, sem: Rsrc, idle: Task, reaper: Task, pager: Task)
      requires run !in {reaperQ, sem, idle, reaper, pager} && reaperQ !in {sem, idle, reaper, pager}
      requires sem !in {idle, reaper, pager} && idle !in {reaper, pager} && reaper != pager
      ensures Stable(Now()) && !halted && current == reaper && runQueue == run && Queue(Now(), run) == [pager]
      ensures reaperSem == sem && sems == map[sem := 0] && idleTask == idle && reaperQueue == reaperQ
    {
      runQueue, reaperQueue, reaperSem, idleTask := run, reaperQ, sem, idle;
      queue := map[run := [pager], reaperQ := [], sem := [], idle := [], reaper := [], pager := []];
      waitingOn := map[idle := None, reaper := None, pager := Some(run)];
      flags := map[idle := Ready, reaper := Running, pager := Waiting];
      status := map[idle := 0, reaper := 0, pager := 0];
      sems := map[sem := 0];
      current, liveTasks, halted := reaper, 2, false;
      new;
      FirstStable(Now(), pager);
    }

    function QueueOf(r: Rsrc): seq<Task>
      reads this
    {
      if r in queue then queue[r] else []
    }

    method RsrcEnqueue(r: Rsrc, t: Task)
      modifies this
      ensures Now() == Enqueue(old(Now()), r, t)
    {
      flags := flags[t := Waiting];
      waitingOn := waitingOn[t := Some(r)];
      queue := queue[r := QueueOf(r) + [t]];
    }

    method ListDetachHead(r: Rsrc) returns (t: Option<Task>)
      modifies this
      ensures t == if Queue(old(Now()), r) == [] then None else Some(Queue(old(Now()), r)[0])
      ensures Now() == if t.None? then old(Now()) else DetachHead(old(Now()), r)
    {
      if QueueOf(r) == [] {
        return None;
      }
      t := Some(QueueOf(r)[0]);
      queue := queue[r := QueueOf(r)[1..]];
    }

    method RsrcDequeue(r: Rsrc) returns (t: Option<Task>)
      modifies this
      ensures t == if Queue(old(Now()), r) == [] then None else Some(Queue(old(Now()), r)[0])
      ensures Now() == if t.None? then old(Now()) else Dequeue(old(Now()), r)
    {
      t := ListDetachHead(r);
      if t.Some? {
        waitingOn := waitingOn[t.value := None];
        flags := flags[t.value := Ready];
      }
    }

    method WakeTask(t: Task, code: int)
      modifies this
      ensures Now() == TaskWake(old(Now()), t, code)
    {
      status := status[t := code];
      RsrcEnqueue(runQueue, t);
    }

    /** The running task goes on the run queue, and task t runs in its place. */
    method PreemptBy(t: Task, code: int)
      requires t != current
      modifies this
      ensures Now() == Preempt(old(Now()), t, code)
    {
      if current != idleTask {
        RsrcEnqueue(runQueue, current);
      }
      current := t;
      status := status[current := code];
      flags := flags[current := Running];
    }

    /** Switches to the next task; with nothing to run and no task alive, the machine halts. */
    method Switch()
      modifies this
      ensures Now() == Swtch(old(Now()))
    {
      var running := current in flags && flags[current] == Running;
      if QueueOf(runQueue) == [] && running {
        return;
      }
      if running && current != idleTask {
        RsrcEnqueue(runQueue, current);
      }
      var next := RsrcDequeue(runQueue);
      if next.None? {
        if liveTasks != 0 {
          current := idleTask;
          flags := flags[current := Running];
        } else {
          halted := true;
        }
      } else {
        current := next.value;
        flags := flags[current := Running];
      }
    }

    /** Waits until somebody wakes the task; its status then is the result. */
    method WaitOnRsrc(r: Rsrc)
      modifies this
      ensures Now() == WaitOn(old(Now()), r)
    {
      status := status[current := 0];
      RsrcEnqueue(r, current);
      Switch();
    }

    /** Wakes all that wait on r, in order. */
    method WakeWaiters(r: Rsrc)
      requires r != runQueue
      modifies this
      ensures Now() == WakeAll(old(Now()), r)
    {
      hide TaskWake;
      var t := Some(0);
      while t.Some?
        invariant WakeAll(Now(), r) == WakeAll(old(Now()), r) && (t.None? ==> QueueOf(r) == [])
        decreases t.Some?, |QueueOf(r)|
      {
        ghost var before := Now();
        t := ListDetachHead(r);
        if t.Some? {
          WakeTask(t.value, ERR_RESOURCE);
          NotOnRun(before, r, t.value);
        }
      }
    }

    /** Takes the resource out of the tables, having woken all that wait on it. */
    method ReleaseRsrc(r: Rsrc)
      requires r != runQueue
      modifies this
      ensures Now() == RsrcRelease(old(Now()), r)
    {
      WakeWaiters(r);
      queue := queue - {r};
      sems := sems - {r};
    }

    method CreateSem(s: Rsrc, count: int)
      requires Stable(Now()) && !halted && Allowed(Now(), SemCreate(s, count))
      modifies this
      ensures Now() == Do(old(Now()), SemCreate(s, count)) && Stable(Now())
    {
      hide Stable, Placed, Allowed;
      ghost var before := Now();
      StepKeeps(before, SemCreate(s, count));
      sems := sems[s := count];
      queue := queue[s := []];
    }

    method DestroySem(s: Rsrc) returns (code: int)
      requires Stable(Now()) && !halted && Allowed(Now(), SemDestroy(s))
      modifies this
      ensures Now() == Do(old(Now()), SemDestroy(s)) && (halted || Stable(Now()))
      ensures code == if s in old(sems) then ERR_NONE else ERR_RESOURCE
      ensures s !in sems && (s in old(sems) ==> s !in queue)
      ensures s in old(sems) ==> QueueOf(runQueue) == old(QueueOf(runQueue)) + old(QueueOf(s))
      ensures s in old(sems) ==> forall q :: q != s && q != runQueue ==> QueueOf(q) == old(QueueOf(q))
      ensures s in old(sems) ==> KernelLaws.Woken(Now(), old(QueueOf(s)), ERR_RESOURCE)
      ensures s !in old(sems) ==> Now() == old(Now())
    {
      hide Stable, Placed, Allowed, RsrcRelease, KernelLaws.Woken;
      ghost var before := Now();
      StepKeeps(before, SemDestroy(s));
      KernelLaws.SemDestroyMeans(before, s);
      if s in sems {
        NotTheRunQueue(before, s);
      }
      if s !in sems {
        return ERR_RESOURCE;
      }
      ReleaseRsrc(s);
      code := ERR_NONE;
    }

    /** Takes a permit, or waits for one; blocked when the call returns only later, with the task's status. */
    method AcquireSem(s: Rsrc) returns (code: int, blocked: bool)
      requires Stable(Now()) && !halted && Allowed(Now(), SemAcquire(s))
      modifies this
      ensures Now() == Do(old(Now()), SemAcquire(s)) && (halted || Stable(Now()))
      ensures blocked == (s in old(sems) && old(sems)[s] <= 0)
      ensures !blocked ==> code == if s in old(sems) then ERR_NONE else ERR_RESOURCE
    {
      hide Stable, Placed, Allowed, WaitOn;
      ghost var before := Now();
      StepKeeps(before, SemAcquire(s));
      CurrentInFlags(before);
      if s !in sems {
        return ERR_RESOURCE, false;
      }
      if sems[s] > 0 {
        sems := sems[s := sems[s] - 1];
      } else {
        sems := sems[s := sems[s] - 1];
        WaitOnRsrc(s);
        return ERR_NONE, true;
      }
      return ERR_NONE, false;
    }

    /** Gives a permit back; the task that has waited longest for one runs at once. */
    method ReleaseSem(s: Rsrc) returns (code: int)
      requires Stable(Now()) && !halted && Allowed(Now(), SemRelease(s))
      modifies this
      ensures Now() == Do(old(Now()), SemRelease(s)) && Stable(Now()) && !halted
      ensures code == if s in old(sems) then ERR_NONE else ERR_RESOURCE
    {
      hide Stable, Placed, Allowed, Preempt;
      ghost var before := Now();
      if s in sems {
        SemReleaseKeeps(before, s);
        if QueueOf(s) != [] {
          HeadNotCurrent(before, s);
        }
      }
      if s !in sems {
        return ERR_RESOURCE;
      }
      sems := sems[s := sems[s] + 1];
      var t := RsrcDequeue(s);
      if t.Some? {
        PreemptBy(t.value, ERR_NONE);
      }
      code := ERR_NONE;
    }

    /** An interrupt lets the task that sleeps for it run at once. */
    method DispatchIrq(t: Task)
      requires Stable(Now()) && !halted && Allowed(Now(), Irq(t))
      modifies this
      ensures Now() == Do(old(Now()), Irq(t)) && (halted || Stable(Now()))
    {
      hide Stable, Placed, Preempt;
      ghost var before := Now();
      StepKeeps(before, Irq(t));
      CurrentInFlags(before);
      if flags[t] == SleepIrq {
        PreemptBy(t, ERR_NONE);
      }
    }

    method WakeTheReaper()
      modifies this
      ensures Now() == WakeReaper(old(Now()))
    {
      hide TaskWake;
      sems := sems[reaperSem := (if reaperSem in sems then sems[reaperSem] else 0) + 1];
      var t := RsrcDequeue(reaperSem);
      if t.Some? {
        WakeTask(t.value, ERR_NONE);
      }
    }

    /** The running task dies: it goes to the reaper, those that wait on it are woken, and another task runs. */
    method TerminateCurrent()
      requires Stable(Now()) && !halted && Allowed(Now(), Terminate)
      modifies this
      ensures Now() == Do(old(Now()), Terminate) && (halted || Stable(Now()))
    {
      hide Stable, Placed, Allowed, Swtch, WakeAll, WakeReaper;
      ghost var before := Now();
      StepKeeps(before, Terminate);
      TerminateFacts(before);
      var t := current;
      liveTasks := liveTasks - 1;
      RsrcEnqueue(reaperQueue, current);
      flags := flags[current := Dead];
      WakeWaiters(t);
      WakeTheReaper();
      Switch();
    }

    /** The reaper's work for one dead task. */
    method ReapTask()
      requires Stable(Now()) && !halted && Allowed(Now(), Reap)
      modifies this
      ensures Now() == Do(old(Now()), Reap) && (halted || Stable(Now()))
    {
      hide Stable, Placed, Allowed, RsrcRelease;
      ghost var before := Now();
      StepKeeps(before, Reap);
      ReapReady(before);
      var t := RsrcDequeue(reaperQueue);
      ReleaseRsrc(t.value);
      flags, waitingOn, status := flags - {t.value}, waitingOn - {t.value}, status - {t.value};
    }
  }

  /** One task runs, one is next, and all other queues are empty. */
  lemma FirstStable(st: State, next: Task)
    requires Tables(st) && st.current != st.idle && next !in {st.current, st.idle} && next in st.flags
    requires st.flags.Keys == {st.current, st.idle, next}
    requires forall r :: Queue(st, r) == if r == st.run then [next] else []
    requires WaitsOn(st, next) == Some(st.run) && FlagOf(st, next) == Waiting
    requires WaitsOn(st, st.current) == None && FlagOf(st, st.current) == Running && WaitsOn(st, st.idle) == None
    requires st.run !in st.sems && forall s :: s in st.sems ==> st.sems[s] == 0
    ensures Stable(st)
  {
    hide Tables, Queue, WaitsOn, FlagOf;
    forall t | t in st.flags ensures Accounted(st, t) {
      assert t == st.current || t == st.idle || t == next;
    }
  }

  lemma ReapReady(st: State)
    requires Stable(st) && Allowed(st, Reap)
    ensures Queue(st, st.reaper) != [] && Queue(st, st.reaper)[0] != st.run && st.reaper != st.run
  {
    ReapKeeps(st);
  }

  lemma NotOnRun(st: State, r: Rsrc, t: Task)
    requires Queue(st, r) != [] && r != st.run && t == Queue(st, r)[0]
    ensures var st1 := TaskWake(DetachHead(st, r), t, ERR_RESOURCE);
            WakeAll(st1, r) == WakeAll(st, r) && |Queue(st1, r)| == |Queue(st, r)| - 1 && st1.run == st.run
  {
  }

  lemma CurrentInFlags(st: State)
    requires Stable(st)
    ensures st.current in st.flags && FlagOf(st, st.current) == Running
  {
  }

  lemma NotTheRunQueue(st: State, s: Rsrc)
    requires Stable(st) && s in st.sems
    ensures s != st.run
  {
  }

  lemma HeadNotCurrent(st: State, s: Rsrc)
    requires Stable(st) && Queue(st, s) != []
    ensures Queue(st, s)[0] != st.current
  {
    OneQueue(st, s, 0, s, 0);
  }

  lemma TerminateFacts(st: State)
    requires Stable(st)
    ensures st.current != st.run && st.reaperSem in st.sems && st.current in st.flags
  {
  }
}
