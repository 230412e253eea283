/** Safety over whole runs: each step, and so every run, keeps the scheduler's invariant. */
module KernelSteps {
  import opened KernelState
  import opened KernelSafety

  /** The running task's own record. */
  ghost predicate Runs(st: State) {
    FlagOf(st, st.current) == Running && WaitsOn(st, st.current) == None
  }

  lemma StableParts(st: State)
    ensures Stable(st) <==> PlacedBut(st, {}) && SemsAgree(st) && Runs(st)
  {
    NoneOut(st);
    hide PlacedBut, Placed, SemsAgree;
  }

  /** Semaphores do not notice what happens on other queues. */
  lemma SemsUntouched(st: State, st1: State)
    requires SemsAgree(st) && SameRest(st, st1) && st.run !in st.sems
    requires forall q :: q != st.run ==> Queue(st1, q) == Queue(st, q)
    ensures SemsAgree(st1)
  {
  }

  lemma TableFacts(st: State, out: set<Task>)
    requires PlacedBut(st, out)
    ensures st.run !in st.sems && st.reaper !in st.sems && st.sems.Keys !! st.flags.Keys
    ensures st.sems.Keys <= st.queue.Keys
    ensures st.reaperSem in st.sems && st.reaperSem != st.run && st.reaperSem != st.reaper
    ensures st.run !in st.flags && st.reaper !in st.flags && st.reaper != st.run
  {
  }

  /** The running task joins the queue of r and gives up the processor. */
  lemma WaitOnKeeps(st: State, r: Rsrc)
    requires PlacedBut(st, {}) && Runs(st) && st.current != st.idle && r in st.queue && r != st.run && !st.halted
    ensures var st1 := WaitOn(st, r);
            && SameRest(st, st1) && Queue(st1, r) == Queue(st, r) + [st.current]
            && (forall q :: q != r && q != st.run ==> Queue(st1, q) == Queue(st, q))
            && (st1.halted || (PlacedBut(st1, {}) && Runs(st1)))
  {
    hide PlacedBut, Swtch;
    var t, st0 := st.current, st.(status := st.status[st.current := 0]);
    CurrentIsTask(st, {});
    StatusSet(st, t, 0, {});
    NotQueued(st0, {}, t);
    TakeOut(st0, {}, t);
    EnqueueBut(st0, {} + {t}, r, t);
    OutSame(Enqueue(st0, r, t), {} + {t} - {t}, {});
    SwtchKeeps(Enqueue(st0, r, t));
  }

  lemma StatusSet(st: State, t: Task, code: int, out: set<Task>)
    requires PlacedBut(st, out) && t in st.flags
    ensures PlacedBut(st.(status := st.status[t := code]), out)
  {
    SamePlaced(st, st.(status := st.status[t := code]), out);
  }

  /** A task taken off its queue runs in place of the one that ran. */
  lemma PreemptKeeps(st: State, t: Task, code: int)
    requires PlacedBut(st, {t}) && Runs(st) && t != st.current && WaitsOn(st, t) == None
    ensures var st1 := Preempt(st, t, code);
            && PlacedBut(st1, {}) && Runs(st1) && SameRest(st, st1) && st1.current == t && st1.halted == st.halted
            && (forall q :: q != st.run ==> Queue(st1, q) == Queue(st, q))
            && Queue(st1, st.run) == Queue(st, st.run) + (if st.current != st.idle then [st.current] else [])
  {
    hide PlacedBut, Parked, Enqueue;
    var st1 := if st.current != st.idle then Enqueue(st, st.run, st.current) else st;
    if st.current != st.idle {
      RequeueCurrent(st, {t});
      QueuedParked(st1, {t});
    } else {
      IdleRests(st, {t});
      IdleParked(st);
    }
    InTables(st1, {t}, t);
    StatusSet(st1, t, code, {t});
    var st2 := st1.(status := st1.status[t := code]);
    StatusParked(st1, st2);
    ResumeBut(st2, {t}, t);
    OutSame(Resume(st2, t), {t} - {t}, {});
    ResumeRest(st2, t);
  }

  lemma InTables(st: State, out: set<Task>, t: Task)
    requires PlacedBut(st, out) && t in out
    ensures t in st.flags && t in st.status && t in st.waitingOn
  {
  }

  lemma QueuedParked(st: State, out: set<Task>)
    requires PlacedBut(st, out) && st.current !in out && FlagOf(st, st.current) == Waiting
    ensures Parked(st, st.current)
  {
    assert Accounted(st, st.current);
  }

  lemma IdleParked(st: State)
    requires WaitsOn(st, st.idle) == None
    ensures Parked(st, st.idle)
  {
  }

  lemma StatusParked(st: State, st1: State)
    requires Parked(st, st.current) && SamePlaces(st, st1)
    ensures Parked(st1, st1.current)
  {
  }

  lemma CountAdded(st: State, s: Rsrc, n: int)
    requires PlacedBut(st, {}) && s in st.sems
    ensures var st1 := AddCount(st, s, n);
            PlacedBut(st1, {}) && SamePlaces(st, st1) && st1.sems == st.sems[s := st.sems[s] + n]
              && st1.halted == st.halted
            && st1.live == st.live && (Runs(st) ==> Runs(st1)) && forall q :: Queue(st1, q) == Queue(st, q)
  {
    SamePlaced(st, AddCount(st, s, n), {});
    hide PlacedBut;
  }

  lemma SemAcquireKeeps(st: State, s: Rsrc)
    requires Stable(st) && Allowed(st, SemAcquire(s)) && s in st.sems && !st.halted
    ensures var st1 := Do(st, SemAcquire(s));
            && (st1.halted || Stable(st1))
            && Queue(st1, s) == Queue(st, s) + (if st.sems[s] <= 0 then [st.current] else [])
            && (forall q :: q != s && q != st.run ==> Queue(st1, q) == Queue(st, q))
  {
    hide PlacedBut, SemsAgree, WaitOn, AddCount;
    StableParts(st);
    TableFacts(st, {});
    CountAdded(st, s, -1);
    var st0 := AddCount(st, s, -1);
    if st.sems[s] > 0 {
      SemsCounted(st, st0, s);
      StableParts(st0);
    } else {
      WaitOnKeeps(st0, s);
      SemsCounted(st, WaitOn(st0, s), s);
      StableParts(WaitOn(st0, s));
    }
  }

  /** One semaphore's count and queue have changed in step; the others are as before. */
  lemma SemsCounted(st: State, st1: State, s: Rsrc)
    requires SemsAgree(st) && s in st.sems && st1.sems.Keys == st.sems.Keys
    requires forall q :: q in st.sems && q != s ==> Queue(st1, q) == Queue(st, q) && st1.sems[q] == st.sems[q]
    requires |Queue(st1, s)| - |Queue(st, s)| == Waiters(st1.sems[s]) - Waiters(st.sems[s])
    ensures SemsAgree(st1)
  {
  }

  lemma SemReleaseKeeps(st: State, s: Rsrc)
    requires Stable(st) && Allowed(st, SemRelease(s)) && s in st.sems && !st.halted
    ensures var st1 := Do(st, SemRelease(s));
            && Stable(st1) && !st1.halted
            && (Queue(st, s) == [] ==> st1.current == st.current && Queue(st1, s) == [])
            && (Queue(st, s) != [] ==> st1.current == Queue(st, s)[0] && Queue(st1, s) == Queue(st, s)[1..])
            && (forall q :: q != s && q != st.run ==> Queue(st1, q) == Queue(st, q))
  {
    hide PlacedBut, SemsAgree, Preempt, AddCount, Dequeue;
    StableParts(st);
    TableFacts(st, {});
    CountAdded(st, s, 1);
    CountedQueue(st, s);
    var st0 := AddCount(st, s, 1);
    if Queue(st0, s) == [] {
      SemsCounted(st, st0, s);
      StableParts(st0);
    } else {
      var t := Queue(st0, s)[0];
      DequeueBut(st0, {}, s);
      DequeueRest(st0, s);
      OutSame(Dequeue(st0, s), {} + {t}, {t});
      PreemptKeeps(Dequeue(st0, s), t, ERR_NONE);
      SemsCounted(st, Preempt(Dequeue(st0, s), t, ERR_NONE), s);
      StableParts(Preempt(Dequeue(st0, s), t, ERR_NONE));
    }
  }

  lemma CountedQueue(st: State, s: Rsrc)
    requires SemsAgree(st) && s in st.sems
    ensures |Queue(st, s)| == Waiters(st.sems[s])
  {
  }

  lemma DequeueRest(st: State, r: Rsrc)
    requires PlacedBut(st, {}) && Queue(st, r) != []
    ensures var st1 := Dequeue(st, r);
            && SameRest(st, st1) && st1.current == st.current && st1.halted == st.halted && st1.sems == st.sems
            && (Runs(st) ==> Runs(st1) && st.current != Queue(st, r)[0])
  {
    assert QueuedAt(st, r, 0);
    hide PlacedBut, QueuedAt;
  }

  lemma NewQueue(st: State, r: Rsrc, sems: map<Rsrc, int>)
    requires PlacedBut(st, {}) && r !in st.queue && (sems == st.sems || sems.Keys == st.sems.Keys + {r})
    ensures var st1 := st.(queue := st.queue[r := []], sems := sems);
            PlacedBut(st1, {}) && forall q :: Queue(st1, q) == Queue(st, q)
  {
    var st1 := st.(queue := st.queue[r := []], sems := sems);
    forall q, i ensures QueuedAt(st1, q, i) {
      assert QueuedAt(st, q, i);
    }
    forall x | x in st1.flags ensures Accounted(st1, x) {
      assert Accounted(st, x);
    }
  }

  lemma CreateKeeps(st: State, r: Rsrc, count: int)
    requires Stable(st) && r !in st.queue && count >= 0
    ensures forall q :: Queue(st.(queue := st.queue[r := []]), q) == Queue(st, q)
    ensures forall q :: Queue(st.(queue := st.queue[r := []], sems := st.sems[r := count]), q) == Queue(st, q)
    ensures Stable(st.(queue := st.queue[r := []]))
    ensures Stable(st.(queue := st.queue[r := []], sems := st.sems[r := count]))
  {
    hide PlacedBut;
    StableParts(st);
    TableFacts(st, {});
    NewQueue(st, r, st.sems);
    NewQueue(st, r, st.sems[r := count]);
    StableParts(st.(queue := st.queue[r := []]));
    StableParts(st.(queue := st.queue[r := []], sems := st.sems[r := count]));
  }

  /** Releasing a resource wakes all that wait on it, in order, and takes it out of the tables. */
  lemma ReleaseKeeps(st: State, r: Rsrc)
    requires Stable(st) && r != st.run && r != st.reaper && r != st.reaperSem && r !in st.flags
    ensures Stable(RsrcRelease(st, r)) && RsrcRelease(st, r).halted == st.halted && r !in RsrcRelease(st, r).queue
    ensures Queue(RsrcRelease(st, r), st.run) == Queue(st, st.run) + Queue(st, r)
    ensures forall q :: q != r && q != st.run ==> Queue(RsrcRelease(st, r), q) == Queue(st, q)
  {
    hide PlacedBut, WakeAll;
    StableParts(st);
    TableFacts(st, {});
    WakeAllBut(st, {}, r);
    var st1 := WakeAll(st, r);
    RemoveBut(st1, {}, r);
    OutSame(Removed(st1, r), {} - {r}, {});
    RunningNotQueued(st, r);
    assert st1.flags - {r} == st1.flags && st1.waitingOn - {r} == st1.waitingOn && st1.status - {r} == st1.status by {
      SameTables(st1, {});
    }
    StableParts(RsrcRelease(st, r));
  }

  lemma SameTables(st: State, out: set<Task>)
    requires PlacedBut(st, out)
    ensures st.flags.Keys == st.waitingOn.Keys == st.status.Keys
  {
  }

  lemma RunningNotQueued(st: State, r: Rsrc)
    requires PlacedBut(st, {}) && Runs(st)
    ensures st.current !in Queue(st, r)
  {
    NotQueued(st, {}, st.current);
  }

  lemma SwtchRuns(st: State)
    requires PlacedBut(st, {}) && SemsAgree(st)
    requires (FlagOf(st, st.current) == Running ==> WaitsOn(st, st.current) == None)
    requires !st.halted
    ensures Swtch(st).halted || Stable(Swtch(st))
    ensures forall q :: q != st.run ==> Queue(Swtch(st), q) == Queue(st, q)
  {
    hide PlacedBut, Swtch;
    SwtchKeeps(st);
    TableFacts(st, {});
    SemsUntouched(st, Swtch(st));
    StableParts(Swtch(st));
  }

  lemma BlockKeeps(st: State, r: Rsrc)
    requires Stable(st) && st.current != st.idle && r in st.queue && r != st.run && r !in st.sems && !st.halted
    ensures WaitOn(st, r).halted || Stable(WaitOn(st, r))
    ensures Queue(WaitOn(st, r), r) == Queue(st, r) + [st.current]
    ensures forall q :: q != r && q != st.run ==> Queue(WaitOn(st, r), q) == Queue(st, q)
  {
    hide PlacedBut, WaitOn;
    StableParts(st);
    TableFacts(st, {});
    WaitOnKeeps(st, r);
    SemsElsewhere(st, WaitOn(st, r), r);
    StableParts(WaitOn(st, r));
  }

  lemma SemsElsewhere(st: State, st1: State, r: Rsrc)
    requires SemsAgree(st) && SameRest(st, st1) && r !in st.sems && st.run !in st.sems
    requires forall q :: q != r && q != st.run ==> Queue(st1, q) == Queue(st, q)
    ensures SemsAgree(st1)
  {
  }

  lemma WakeOneKeeps(st: State, r: Rsrc)
    requires Stable(st) && Queue(st, r) != [] && r != st.run && r !in st.sems
    ensures var st1 := TaskWake(Dequeue(st, r), Queue(st, r)[0], ERR_NONE);
            && Stable(st1) && st1.halted == st.halted && Queue(st1, r) == Queue(st, r)[1..]
            && forall q :: q != r && q != st.run ==> Queue(st1, q) == Queue(st, q)
  {
    hide PlacedBut, TaskWake, Dequeue;
    StableParts(st);
    TableFacts(st, {});
    WakeHead(st, {}, r, ERR_NONE);
    WokenRest(st, {}, r, ERR_NONE);
    RunningNotQueued(st, r);
    var st1 := TaskWake(Dequeue(st, r), Queue(st, r)[0], ERR_NONE);
    SemsElsewhere(st, st1, r);
    StableParts(st1);
  }

  lemma SpawnKeeps(st: State, t: Task)
    requires Stable(st) && t !in st.queue
    ensures Stable(Spawned(st, t)) && Queue(Spawned(st, t), st.run) == Queue(st, st.run) + [t]
    ensures forall q :: q != st.run ==> Queue(Spawned(st, t), q) == Queue(st, q)
  {
    hide PlacedBut, Enqueue;
    StableParts(st);
    TableFacts(st, {});
    CurrentIsTask(st, {});
    var st1 := st.(queue := st.queue[t := []], flags := st.flags[t := Ready], waitingOn := st.waitingOn[t := None],
                   status := st.status[t := 0], live := st.live + 1);
    NewTask(st, t);
    EnqueueBut(st1, {t}, st.run, t);
    OutSame(Spawned(st, t), {t} - {t}, {});
    SpawnedRest(st, t);
    StableParts(Spawned(st, t));
  }

  lemma NewTask(st: State, t: Task)
    requires PlacedBut(st, {}) && t !in st.queue
    ensures var st1 := st.(queue := st.queue[t := []], flags := st.flags[t := Ready],
      waitingOn := st.waitingOn[t := None],
                           status := st.status[t := 0], live := st.live + 1);
            PlacedBut(st1, {t}) && t != st.idle && forall q :: Queue(st1, q) == Queue(st, q)
  {
    var st1 := st.(queue := st.queue[t := []], flags := st.flags[t := Ready], waitingOn := st.waitingOn[t := None],
                   status := st.status[t := 0], live := st.live + 1);
    forall q, i ensures QueuedAt(st1, q, i) {
      assert QueuedAt(st, q, i);
    }
    forall x | x in st1.flags && x != t ensures Accounted(st1, x) {
      assert Accounted(st, x);
    }
    NeverQueued(st, t);
    OffSameQueues(st, st1, t);
  }

  lemma NeverQueued(st: State, t: Task)
    requires PlacedBut(st, {}) && t !in st.flags
    ensures OffQueues(st, t)
  {
    forall q ensures t !in Queue(st, q) {
      if t in Queue(st, q) {
        QueuedAtAll(st, q, t);
      }
    }
  }

  lemma OffSameQueues(st: State, st1: State, t: Task)
    requires OffQueues(st, t) && forall q :: Queue(st1, q) == Queue(st, q)
    ensures OffQueues(st1, t)
  {
    forall q ensures t !in Queue(st1, q) {
      assert t !in Queue(st, q);
    }
  }

  lemma SpawnedRest(st: State, t: Task)
    requires PlacedBut(st, {}) && SemsAgree(st) && Runs(st) && t !in st.queue && st.run !in st.sems
    ensures SemsAgree(Spawned(st, t)) && Runs(Spawned(st, t))
  {
    hide QueuedAt, Accounted;
  }

  lemma SleepKeeps(st: State)
    requires Stable(st) && st.current != st.idle && !st.halted
    ensures var st1 := Do(st, SleepForIrq);
            (st1.halted || Stable(st1)) && forall q :: q != st.run ==> Queue(st1, q) == Queue(st, q)
  {
    hide PlacedBut, Swtch;
    StableParts(st);
    var st1 := st.(flags := st.flags[st.current := SleepIrq]);
    Asleep(st);
    SwtchRuns(st1);
  }

  lemma Asleep(st: State)
    requires PlacedBut(st, {}) && Runs(st) && SemsAgree(st)
    ensures var st1 := st.(flags := st.flags[st.current := SleepIrq]);
            PlacedBut(st1, {}) && SemsAgree(st1) && forall q :: Queue(st1, q) == Queue(st, q)
  {
    NotQueued(st, {}, st.current);
    var st1 := st.(flags := st.flags[st.current := SleepIrq]);
    forall q, i ensures QueuedAt(st1, q, i) {
      assert QueuedAt(st, q, i) && st.current !in Queue(st, q);
    }
    forall x | x in st1.flags ensures Accounted(st1, x) {
      assert Accounted(st, x);
    }
  }

  lemma IrqKeeps(st: State, t: Task)
    requires Stable(st) && t in st.flags && FlagOf(st, t) == SleepIrq
    ensures Stable(Preempt(st, t, ERR_NONE)) && Preempt(st, t, ERR_NONE).current == t
    ensures Preempt(st, t, ERR_NONE).halted == st.halted
    ensures forall q :: q != st.run ==> Queue(Preempt(st, t, ERR_NONE), q) == Queue(st, q)
  {
    hide PlacedBut, Preempt;
    StableParts(st);
    TableFacts(st, {});
    NotQueued(st, {}, t);
    TakeOut(st, {}, t);
    OutSame(st, {} + {t}, {t});
    SleeperWaitsOnNothing(st, t);
    PreemptKeeps(st, t, ERR_NONE);
    SemsUntouched(st, Preempt(st, t, ERR_NONE));
    StableParts(Preempt(st, t, ERR_NONE));
  }

  lemma SleeperWaitsOnNothing(st: State, t: Task)
    requires PlacedBut(st, {}) && t in st.flags && OffQueues(st, t)
    ensures WaitsOn(st, t) == None
  {
    assert Accounted(st, t);
    if WaitsOn(st, t).Some? {
      assert t !in Queue(st, WaitsOn(st, t).value);
    }
  }

  /** The running task is moved to the reaper's queue, and marked dead. */
  function Buried(st: State): State {
    var st1 := Enqueue(st.(live := st.live - 1), st.reaper, st.current);
    st1.(flags := st1.flags[st.current := Dead])
  }

  lemma BuriedKeeps(st: State)
    requires PlacedBut(st, {}) && Runs(st) && st.current != st.idle
    ensures var st1 := Buried(st);
            && PlacedBut(st1, {}) && st1.sems == st.sems && st1.run == st.run && st1.reaperSem == st.reaperSem
            && st1.halted == st.halted
            && st1.current == st.current && FlagOf(st1, st1.current) == Dead && st1.current !in Queue(st1, st1.current)
            && (forall q :: q != st.reaper ==> Queue(st1, q) == Queue(st, q))
  {
    hide PlacedBut, Enqueue, OffQueues;
    var t, st0 := st.current, st.(live := st.live - 1);
    CurrentIsTask(st, {});
    NotQueued(st, {}, t);
    OffQueuesAt(st, t, t);
    Decremented(st);
    TakeOut(st0, {}, t);
    EnqueueBut(st0, {} + {t}, st0.reaper, t);
    OutSame(Enqueue(st0, st0.reaper, t), {} + {t} - {t}, {});
    EnqueueRest(st0, st0.reaper, t);
    MarkedDead(Enqueue(st0, st0.reaper, t), t);
  }

  lemma EnqueueRest(st: State, r: Rsrc, t: Task)
    ensures var st1 := Enqueue(st, r, t);
            && st1.sems == st.sems && st1.run == st.run && st1.reaperSem == st.reaperSem && st1.halted == st.halted
            && st1.current == st.current && FlagOf(st1, t) == Waiting && t in st1.flags
  {
  }

  lemma OffQueuesAt(st: State, t: Task, r: Rsrc)
    requires OffQueues(st, t)
    ensures t !in Queue(st, r)
  {
  }

  lemma Decremented(st: State)
    requires PlacedBut(st, {}) && OffQueues(st, st.current)
    ensures PlacedBut(st.(live := st.live - 1), {}) && OffQueues(st.(live := st.live - 1), st.current)
    ensures forall q :: Queue(st.(live := st.live - 1), q) == Queue(st, q)
  {
    var st1 := st.(live := st.live - 1);
    forall q, i ensures QueuedAt(st1, q, i) {
      assert QueuedAt(st, q, i);
    }
    forall x | x in st1.flags ensures Accounted(st1, x) {
      assert Accounted(st, x);
    }
    OffSame(st, st1, st.current);
  }

  lemma MarkedDead(st: State, t: Task)
    requires PlacedBut(st, {}) && FlagOf(st, t) == Waiting && t in st.flags
    ensures PlacedBut(st.(flags := st.flags[t := Dead]), {}) && FlagOf(st.(flags := st.flags[t := Dead]), t) == Dead
    ensures forall q :: Queue(st.(flags := st.flags[t := Dead]), q) == Queue(st, q)
  {
    var st1 := st.(flags := st.flags[t := Dead]);
    forall q, i ensures QueuedAt(st1, q, i) {
      assert QueuedAt(st, q, i);
    }
    forall x | x in st1.flags ensures Accounted(st1, x) {
      assert Accounted(st, x);
    }
  }

  function Tail(s: seq<Task>): seq<Task> { if s == [] then [] else s[1..] }

  lemma WakeReaperKeeps(st: State)
    requires PlacedBut(st, {}) && SemsAgree(st) && FlagOf(st, st.current) != Running
    ensures var st1 := WakeReaper(st);
            && PlacedBut(st1, {}) && SemsAgree(st1) && FlagOf(st1, st1.current) != Running && st1.halted == st.halted
            && st1.run == st.run && Queue(st1, st.reaperSem) == Tail(Queue(st, st.reaperSem))
            && forall q :: q != st.reaperSem && q != st.run ==> Queue(st1, q) == Queue(st, q)
  {
    hide PlacedBut, SemsAgree, TaskWake, Dequeue, AddCount;
    var s := st.reaperSem;
    TableFacts(st, {});
    CountAdded(st, s, 1);
    CountedQueue(st, s);
    var st1 := AddCount(st, s, 1);
    if Queue(st1, s) == [] {
      SemsCounted(st, st1, s);
    } else {
      WakeHead(st1, {}, s, ERR_NONE);
      WokenRest(st1, {}, s, ERR_NONE);
      SemsCounted(st, WakeReaper(st), s);
    }
  }

  /** What a dying task leaves when it gives up the processor. */
  function Parting(st: State): State
    requires st.current != st.run
  {
    WakeReaper(WakeAll(Buried(st), st.current))
  }

  lemma PartingKeeps(st: State)
    requires Stable(st) && st.current != st.idle
    ensures st.current != st.run && st.current != st.reaperSem
    ensures var st1 := Parting(st);
            && PlacedBut(st1, {}) && SemsAgree(st1) && FlagOf(st1, st1.current) != Running && st1.halted == st.halted
            && st1.run == st.run && Queue(st1, st.reaperSem) == Tail(Queue(st, st.reaperSem))
            && forall q :: q in st.sems && q != st.reaperSem ==> Queue(st1, q) == Queue(st, q)
  {
    hide PlacedBut, SemsAgree, WakeAll, WakeReaper, Buried;
    StableParts(st);
    TableFacts(st, {});
    CurrentIsTask(st, {});
    BuriedKeeps(st);
    var t, st1 := st.current, Buried(st);
    SemsMoved(st, st1, st.reaper);
    WakeAllBut(st1, {}, t);
    var st2 := WakeAll(st1, t);
    SemsElsewhere(st1, st2, t);
    WakeReaperKeeps(st2);
  }

  lemma TerminateKeeps(st: State)
    requires Stable(st) && st.current != st.idle && !st.halted
    ensures st.current != st.run && (Terminated(st).halted || Stable(Terminated(st)))
    ensures Queue(Terminated(st), st.reaperSem) == Tail(Queue(st, st.reaperSem))
    ensures forall q :: q in st.sems && q != st.reaperSem ==> Queue(Terminated(st), q) == Queue(st, q)
  {
    hide PlacedBut, SemsAgree, Parting, Swtch;
    PartingKeeps(st);
    SwtchRuns(Parting(st));
    TerminatedIs(st);
    StableParts(st);
    TableFacts(st, {});
  }

  lemma TerminatedIs(st: State)
    requires st.current != st.run
    ensures Terminated(st) == Swtch(Parting(st))
  {
    hide WakeAll, WakeReaper, Swtch;
  }

  lemma SemsMoved(st: State, st1: State, r: Rsrc)
    requires SemsAgree(st) && st1.sems == st.sems && r !in st.sems && forall q :: q != r ==>
      Queue(st1, q) == Queue(st, q)
    ensures SemsAgree(st1)
  {
  }

  /** The reaper destroys the first dead task: all that waited on it are woken, and nothing of it is left. */
  lemma ReapKeeps(st: State)
    requires Stable(st) && Queue(st, st.reaper) != []
    ensures var t := Queue(st, st.reaper)[0];
            t != st.run && Stable(Reaped(st)) && Reaped(st).halted == st.halted && t !in Reaped(st).flags
              && t !in Reaped(st).queue
    ensures Queue(st, st.reaper)[0] != st.run && forall q :: q in st.sems ==> Queue(Reaped(st), q) == Queue(st, q)
  {
    hide PlacedBut, SemsAgree, WakeAll, Dequeue;
    StableParts(st);
    TableFacts(st, {});
    var t := Queue(st, st.reaper)[0];
    DequeueBut(st, {}, st.reaper);
    DequeueRest(st, st.reaper);
    var st1 := Dequeue(st, st.reaper);
    OutSame(st1, {} + {t}, {t});
    InTables(st1, {t}, t);
    WakeAllBut(st1, {t}, t);
    OffDuring(st1, t);
    var st2 := WakeAll(st1, t);
    RemoveBut(st2, {t}, t);
    OutSame(Removed(st2, t), {t} - {t}, {});
    SemsMoved(st, st1, st.reaper);
    SemsElsewhere(st1, st2, t);
    ReapedIs(st);
    SemsRemoved(st2, t);
    StableParts(Reaped(st));
  }

  lemma OffDuring(st: State, t: Task)
    requires PlacedBut(st, {t}) && Runs(st)
    ensures st.current !in Queue(st, t)
  {
    NotQueued(st, {t}, st.current);
  }

  lemma SemsRemoved(st: State, t: Task)
    requires SemsAgree(st) && t !in st.sems
    ensures SemsAgree(Removed(st, t)) && st.sems - {t} == st.sems
  {
  }

  lemma ReapedIs(st: State)
    requires Queue(st, st.reaper) != [] && Queue(st, st.reaper)[0] != st.run
    ensures var t := Queue(st, st.reaper)[0]; Reaped(st) == Removed(WakeAll(Dequeue(st, st.reaper), t), t)
  {
    hide WakeAll, Dequeue;
  }

  /** The task that joins the queue of semaphore s in a step, and the one that leaves it with a permit. */
  function Joins(st: State, step: Step, s: Rsrc): seq<Task> {
    if step == SemAcquire(s) && Count(st, s) <= 0 then [st.current] else []
  }

  function Leaves(st: State, step: Step, s: Rsrc): seq<Task> {
    if (step == SemRelease(s) || (step == Terminate && s == st.reaperSem)) && Queue(st, s) != []
    then [Queue(st, s)[0]] else []
  }

  /** Each step the kernel allows keeps the invariant, or halts the machine. */
  lemma StepKeeps(st: State, step: Step)
    requires Stable(st) && !st.halted && Allowed(st, step)
    ensures Do(st, step).halted || Stable(Do(st, step))
  {
    hide PlacedBut, Placed, SemsAgree, Swtch, WaitOn, RsrcRelease, Preempt, Spawned, Queue, Terminated, Reaped;
    hide TaskWake, Dequeue, AddCount, Runs;
    StableParts(st);
    TableFacts(st, {});
    CurrentIsTask(st, {});
    match step {
      case SemCreate(r, count) => CreateKeeps(st, r, count);
      case SemDestroy(r) => if r in st.sems { ReleaseKeeps(st, r); }
      case SemAcquire(r) => if r in st.sems { SemAcquireKeeps(st, r); }
      case SemRelease(r) => if r in st.sems { SemReleaseKeeps(st, r); }
      case ThrWait(t) => if t in st.flags { BlockKeeps(st, t); }
      case Spawn(t) => SpawnKeeps(st, t);
      case QueueCreate(r) => CreateKeeps(st, r, 0);
      case QueueDestroy(r) => ReleaseKeeps(st, r);
      case Block(r) => BlockKeeps(st, r);
      case WakeOne(r) => if Queue(st, r) != [] { WakeOneKeeps(st, r); }
      case Yield =>
        RunsWaitsOnNothing(st);
        SwtchRuns(st);
      case SleepForIrq => SleepKeeps(st);
      case Irq(t) => if FlagOf(st, t) == SleepIrq { IrqKeeps(st, t); }
      case Terminate => TerminateKeeps(st);
      case Reap => ReapKeeps(st);
    }
  }

  lemma OtherQueues(st: State, step: Step, s: Rsrc)
    requires Stable(st) && !st.halted && Allowed(st, step) && s in st.sems && step != SemDestroy(s)
    requires !step.SemAcquire? && !step.SemRelease? && !step.Terminate?
    ensures Queue(Do(st, step), s) == Queue(st, s)
  {
    hide Stable, PlacedBut, Placed, SemsAgree, Swtch, WaitOn, RsrcRelease, Preempt, Spawned, Terminated, Reaped;
    hide TaskWake, Dequeue, Runs, Queue;
    StableParts(st);
    TableFacts(st, {});
    match step {
      case SemCreate(r, count) => CreateKeeps(st, r, count);
      case SemDestroy(r) => if r in st.sems { ReleaseKeeps(st, r); }
      case ThrWait(t) => if t in st.flags { CurrentIsTask(st, {}); BlockKeeps(st, t); }
      case Spawn(t) => SpawnKeeps(st, t);
      case QueueCreate(r) => CreateKeeps(st, r, 0);
      case QueueDestroy(r) => ReleaseKeeps(st, r);
      case Block(r) => BlockKeeps(st, r);
      case WakeOne(r) => if Queue(st, r) != [] { WakeOneKeeps(st, r); }
      case Yield =>
        RunsWaitsOnNothing(st);
        SwtchRuns(st);
      case SleepForIrq => SleepKeeps(st);
      case Irq(t) => if FlagOf(st, t) == SleepIrq { IrqKeeps(st, t); }
      case Reap => ReapKeeps(st);
    }
  }

  /** A semaphore's queue is joined at the end and left at the front. */
  lemma StepPasses(st: State, step: Step, s: Rsrc)
    requires Stable(st) && !st.halted && Allowed(st, step)
    requires s in st.sems && step != SemDestroy(s)
    ensures Queue(st, s) + Joins(st, step, s) == Leaves(st, step, s) + Queue(Do(st, step), s)
  {
    hide Stable, PlacedBut, Placed, SemsAgree, Swtch, WaitOn, RsrcRelease, Preempt, Spawned, Terminated, Reaped;
    hide TaskWake, Dequeue, AddCount, Runs, Queue;
    StableParts(st);
    TableFacts(st, {});
    match step {
      case SemAcquire(r) => if r in st.sems { SemAcquireKeeps(st, r); }
      case SemRelease(r) => if r in st.sems { SemReleaseKeeps(st, r); }
      case Terminate => TerminateKeeps(st);
      case _ => OtherQueues(st, step, s);
    }
  }

  lemma RunsWaitsOnNothing(st: State)
    requires Runs(st)
    ensures WaitsOn(st, st.current) == None
  {
  }

  /** The states a run goes through; it ends when the machine halts. */
  ghost predicate Run(states: seq<State>, steps: seq<Step>) {
    && |states| == |steps| + 1
    && forall i :: 0 <= i < |steps| ==>
         !states[i].halted && Allowed(states[i], steps[i]) && states[i + 1] == Do(states[i], steps[i])
  }

  /** In every state of every run each task is accounted for, and semaphores agree with their queues. */
  lemma {:induction false} RunStable(states: seq<State>, steps: seq<Step>, i: nat)
    requires Run(states, steps) && Stable(states[0]) && i <= |steps|
    ensures states[i].halted || Stable(states[i])
  {
    hide Stable, Placed, Do, Allowed;
    if i > 0 {
      RunStable(states, steps, i - 1);
      StepKeeps(states[i - 1], steps[i - 1]);
    }
  }

  /** The tasks that joined, and those that left with a permit, in the first n steps. */
  ghost function Joined(states: seq<State>, steps: seq<Step>, s: Rsrc, n: nat): seq<Task>
    requires Run(states, steps) && n <= |steps|
  {
    if n == 0 then [] else Joined(states, steps, s, n - 1) + Joins(states[n - 1], steps[n - 1], s)
  }

  ghost function Left(states: seq<State>, steps: seq<Step>, s: Rsrc, n: nat): seq<Task>
    requires Run(states, steps) && n <= |steps|
  {
    if n == 0 then [] else Left(states, steps, s, n - 1) + Leaves(states[n - 1], steps[n - 1], s)
  }

  /** As long as a semaphore exists, permits go to waiting tasks in the order in which they came. */
  lemma {:induction false} FirstComeFirstServed(states: seq<State>, steps: seq<Step>, s: Rsrc, n: nat)
    requires Run(states, steps) && Stable(states[0]) && n <= |steps|
    requires forall i :: 0 <= i < n ==> s in states[i].sems && steps[i] != SemDestroy(s)
    ensures Queue(states[0], s) + Joined(states, steps, s, n) == Left(states, steps, s, n) + Queue(states[n], s)
  {
    hide Stable, Placed, Do, Allowed, Joins, Leaves, Queue;
    if n > 0 {
      FirstComeFirstServed(states, steps, s, n - 1);
      RunStable(states, steps, n - 1);
      StepPasses(states[n - 1], steps[n - 1], s);
      var q0, j, l, q1 := Queue(states[0], s), Joins(states[n - 1], steps[n - 1], s),
        Leaves(states[n - 1], steps[n - 1], s), Queue(states[n], s);
      assert q0 + (Joined(states, steps, s, n - 1) + j) == (q0 + Joined(states, steps, s, n - 1)) + j;
      assert Left(states, steps, s, n - 1) + Queue(states[n - 1], s) + j
        == Left(states, steps, s, n - 1) + (Queue(states[n - 1], s) + j);
      assert (Left(states, steps, s, n - 1) + l) + q1 == Left(states, steps, s, n - 1) + (l + q1);
    }
  }

  /** Giving up the processor runs the first in line; the one that ran goes to the end. */
  lemma YieldTurn(st: State)
    requires Stable(st) && !st.halted && Queue(st, st.run) != []
    ensures var st1 := Swtch(st);
            && Stable(st1) && !st1.halted && st1.current == Queue(st, st.run)[0] && st1.run == st.run
            && st1.idle == st.idle
            && Queue(st1, st.run) == Queue(st, st.run)[1..] + (if st.current != st.idle then [st.current] else [])
  {
    hide PlacedBut, SemsAgree, Enqueue, Dequeue, Resume, Parked;
    StableParts(st);
    TableFacts(st, {});
    CurrentIsTask(st, {});
    var st1 := if st.current != st.idle then Enqueue(st, st.run, st.current) else st;
    if st.current != st.idle {
      RequeueCurrent(st, {});
    }
    CurrentParked(st1);
    ResumeHead(st1);
    SemsUntouched(st, Swtch(st));
    StableParts(Swtch(st));
  }

  function Yields(st: State, n: nat): State
    decreases n
  {
    if n == 0 then st else Yields(Swtch(st), n - 1)
  }

  /** A task in the k-th place of the run queue runs after k more turns and one. */
  lemma {:induction false} RoundRobin(st: State, k: nat)
    requires Stable(st) && !st.halted && k < |Queue(st, st.run)|
    ensures Yields(st, k + 1).current == Queue(st, st.run)[k]
    decreases k
  {
    hide Stable, Swtch, Queue;
    YieldTurn(st);
    if k > 0 {
      RoundRobin(Swtch(st), k - 1);
    } else {
      assert Yields(Swtch(st), 0) == Swtch(st);
    }
  }
}
