/**
 What each kernel call means: which tasks change queue, in which order, with which status, and
 which task runs when the call is over.  Everything a law does not name stays as it was.
 */
module KernelLaws {
  import opened KernelState
  import opened KernelSafety
  import opened KernelSteps

  function StatusOf(st: State, t: Task): int { if t in st.status then st.status[t] else 0 }

  /** The queues other than those of rs are as they were. */
  ghost predicate OtherQueuesSame(st: State, st1: State, rs: set<Rsrc>) {
    forall q :: q !in rs ==> Queue(st1, q) == Queue(st, q) && (q in st1.queue <==> q in st.queue)
  }

  ghost predicate SameTask(st: State, st1: State, t: Task) {
    && FlagOf(st1, t) == FlagOf(st, t) && WaitsOn(st1, t) == WaitsOn(st, t) && StatusOf(st1, t) == StatusOf(st, t)
    && (t in st1.flags <==> t in st.flags)
  }

  /** The tasks other than those of ts are as they were. */
  ghost predicate OtherTasksSame(st: State, st1: State, ts: set<Task>) {
    forall t :: t !in ts ==> SameTask(st, st1, t)
  }

  ghost predicate SemsSame(st: State, st1: State, s: Rsrc) {
    forall q :: q != s ==> (q in st1.sems <==> q in st.sems) && (q in st.sems ==> st1.sems[q] == st.sems[q])
  }

  /** Task t waits on r. */
  ghost predicate Waits(st: State, t: Task, r: Rsrc) {
    FlagOf(st, t) == Waiting && WaitsOn(st, t) == Some(r)
  }

  /** Task t has the processor and waits for nothing. */
  ghost predicate HasProcessor(st: State, t: Task) {
    st.current == t && FlagOf(st, t) == Running && WaitsOn(st, t) == None
  }

  /** The processor goes to the first of the line, or to the idle task, or the machine halts. */
  ghost predicate HandedOn(st: State, st1: State, line: seq<Task>) {
    if line != [] then HasProcessor(st1, line[0]) && Queue(st1, st.run) == line[1..] && st1.halted == st.halted
    else
      && Queue(st1, st.run) == []
      && if st1.live != 0 then HasProcessor(st1, st.idle) && st1.halted == st.halted
         else st1.halted && st1.current == st.current
  }

  /** The tasks of ts, woken with a code, wait for their turn. */
  ghost predicate Woken(st: State, ts: seq<Task>, code: int) {
    forall i :: 0 <= i < |ts| ==> Waits(st, ts[i], st.run) && StatusOf(st, ts[i]) == code
  }

  /** The fields that no call changes, and those that only few do. */
  ghost predicate SameMachine(st: State, st1: State) {
    && st1.run == st.run && st1.reaper == st.reaper && st1.reaperSem == st.reaperSem && st1.idle == st.idle
  }

  lemma QueuesChain(st: State, st1: State, st2: State, rs: set<Rsrc>, rs': set<Rsrc>)
    requires OtherQueuesSame(st, st1, rs) && OtherQueuesSame(st1, st2, rs')
    ensures OtherQueuesSame(st, st2, rs + rs')
  {
    hide Queue;
  }

  lemma TasksChain(st: State, st1: State, st2: State, ts: set<Task>, ts': set<Task>)
    requires OtherTasksSame(st, st1, ts) && OtherTasksSame(st1, st2, ts')
    ensures OtherTasksSame(st, st2, ts + ts')
  {
    hide FlagOf, WaitsOn, StatusOf;
  }

  function SetOf(ts: seq<Task>): set<Task> { set t | t in ts }

  /** Waking all that wait on a resource puts them on the run queue, in order. */
  lemma {:induction false} WakeAllQueues(st: State, r: Rsrc)
    requires r != st.run
    ensures var st1 := WakeAll(st, r);
            && SameMachine(st, st1) && st1.current == st.current && st1.live == st.live && st1.halted == st.halted
            && st1.sems == st.sems && Queue(st1, r) == []
            && Queue(st1, st.run) == Queue(st, st.run) + Queue(st, r)
    decreases |Queue(st, r)|
  {
    var ts := Queue(st, r);
    if ts != [] {
      var st0 := TaskWake(DetachHead(st, r), ts[0], ERR_RESOURCE);
      assert Queue(st0, r) == ts[1..];
      assert Queue(st0, st.run) == Queue(st, st.run) + [ts[0]];
      WakeAllQueues(st0, r);
      assert Queue(st, st.run) + ts == Queue(st, st.run) + [ts[0]] + ts[1..];
    }
  }

  /** Each of them is left with the status of a lost resource. */
  lemma {:induction false} WakeAllWoken(st: State, r: Rsrc)
    requires r != st.run
    ensures Woken(WakeAll(st, r), Queue(st, r), ERR_RESOURCE)
    decreases |Queue(st, r)|
  {
    var ts := Queue(st, r);
    if ts != [] {
      var st0 := TaskWake(DetachHead(st, r), ts[0], ERR_RESOURCE);
      assert Queue(st0, r) == ts[1..];
      WakeAllWoken(st0, r);
      WakeAllElse(st0, r);
      WakeAllQueues(st0, r);
      HeadWoken(st, r);
      WokenOneMore(st0, WakeAll(st0, r), ts);
    }
  }

  lemma HeadWoken(st: State, r: Rsrc)
    requires Queue(st, r) != []
    ensures var t := Queue(st, r)[0];
            var st0 := TaskWake(DetachHead(st, r), t, ERR_RESOURCE);
            Waits(st0, t, st.run) && StatusOf(st0, t) == ERR_RESOURCE && st0.run == st.run
  {
  }

  /** The first was woken before the rest, and perhaps again with them. */
  lemma WokenOneMore(st: State, st1: State, ts: seq<Task>)
    requires ts != [] && Waits(st, ts[0], st.run) && StatusOf(st, ts[0]) == ERR_RESOURCE && st1.run == st.run
    requires Woken(st1, ts[1..], ERR_RESOURCE) && OtherTasksSame(st, st1, SetOf(ts[1..]))
    ensures Woken(st1, ts, ERR_RESOURCE)
  {
    forall i | 0 <= i < |ts| ensures Waits(st1, ts[i], st1.run) && StatusOf(st1, ts[i]) == ERR_RESOURCE {
      if i > 0 {
        assert ts[i] == ts[1..][i - 1];
      } else if ts[0] in ts[1..] {
        var j :| 0 <= j < |ts| - 1 && ts[1..][j] == ts[0];
        assert Waits(st1, ts[1..][j], st1.run);
      } else {
        assert SameTask(st, st1, ts[0]);
      }
    }
  }

  lemma {:induction false} WakeAllElse(st: State, r: Rsrc)
    requires r != st.run
    ensures OtherQueuesSame(st, WakeAll(st, r), {r, st.run})
    ensures OtherTasksSame(st, WakeAll(st, r), SetOf(Queue(st, r)))
    decreases |Queue(st, r)|
  {
    var ts := Queue(st, r);
    if ts != [] {
      var st0 := TaskWake(DetachHead(st, r), ts[0], ERR_RESOURCE);
      assert Queue(st0, r) == ts[1..];
      WakeAllElse(st0, r);
      assert OtherTasksSame(st, st0, {ts[0]});
      TasksChain(st, st0, WakeAll(st0, r), {ts[0]}, SetOf(ts[1..]));
      assert {ts[0]} + SetOf(ts[1..]) == SetOf(ts);
    }
  }

  /** What is left when a resource has been given up. */
  ghost predicate GivenUp(st: State, st1: State, r: Rsrc) {
    && r !in st1.queue && r !in st1.sems && st1.current == st.current && st1.halted == st.halted
    && Queue(st1, st.run) == Queue(st, st.run) + Queue(st, r)
    && Woken(st1, Queue(st, r), ERR_RESOURCE)
    && OtherQueuesSame(st, st1, {r, st.run}) && SemsSame(st, st1, r) && SameMachine(st, st1)
  }

  lemma TakenOut(st: State, r: Rsrc)
    ensures var st1 := st.(queue := st.queue - {r}, sems := st.sems - {r});
            && OtherQueuesSame(st, st1, {r}) && OtherTasksSame(st, st1, {}) && SemsSame(st, st1, r)
            && r !in st1.queue && r !in st1.sems
  {
  }

  lemma WokenKept(st: State, st1: State, ts: seq<Task>, code: int, others: set<Task>)
    requires Woken(st, ts, code) && st1.run == st.run && OtherTasksSame(st, st1, others)
    requires forall i :: 0 <= i < |ts| ==> ts[i] !in others
    ensures Woken(st1, ts, code)
  {
    hide FlagOf, WaitsOn, StatusOf;
    forall i | 0 <= i < |ts| ensures Waits(st1, ts[i], st1.run) && StatusOf(st1, ts[i]) == code {
      assert Waits(st, ts[i], st.run) && SameTask(st, st1, ts[i]);
    }
  }

  lemma ReleaseMeans(st: State, r: Rsrc)
    requires r != st.run
    ensures var st1 := RsrcRelease(st, r);
            GivenUp(st, st1, r) && OtherTasksSame(st, st1, SetOf(Queue(st, r))) && st1.live == st.live
  {
    hide SameTask, WakeAll, Queue, Woken, OtherTasksSame;
    WakeAllQueues(st, r);
    WakeAllWoken(st, r);
    WakeAllElse(st, r);
    var st0, st1 := WakeAll(st, r), RsrcRelease(st, r);
    TakenOut(st0, r);
    WokenKept(st0, st1, Queue(st, r), ERR_RESOURCE, {});
    QueuesChain(st, st0, st1, {r, st.run}, {r});
    TasksChain(st, st0, st1, SetOf(Queue(st, r)), {});
    assert {r, st.run} + {r} == {r, st.run};
    assert SetOf(Queue(st, r)) + {} == SetOf(Queue(st, r));
  }

  lemma SemCreateMeans(st: State, s: Rsrc, count: int)
    requires Stable(st) && Allowed(st, SemCreate(s, count))
    ensures var st1 := Do(st, SemCreate(s, count));
            && s in st1.sems && st1.sems[s] == count && s in st1.queue && Queue(st1, s) == []
            && OtherQueuesSame(st, st1, {s}) && OtherTasksSame(st, st1, {}) && SemsSame(st, st1, s)
            && SameMachine(st, st1) && st1.current == st.current && st1.live == st.live && st1.halted == st.halted
  {
    hide Stable;
  }

  /** Destroying a semaphore takes its id away and wakes every waiter with the status of a lost resource. */
  lemma SemDestroyMeans(st: State, s: Rsrc)
    requires Stable(st) && Allowed(st, SemDestroy(s))
    ensures var st1 := Do(st, SemDestroy(s));
            && s !in st1.sems && (s in st.sems ==> GivenUp(st, st1, s))
            && (s in st.sems ==> OtherTasksSame(st, st1, SetOf(Queue(st, s))) && st1.live == st.live)
            && (s !in st.sems ==> st1 == st)
  {
    if s in st.sems {
      assert s != st.run;
      ReleaseMeans(st, s);
    }
  }

  /** What the invariant says of the running task, the idle task and the head of a queue. */
  lemma PlacedFacts(st: State)
    requires PlacedBut(st, {}) && Runs(st)
    ensures Tables(st) && FlagOf(st, st.current) == Running && WaitsOn(st, st.current) == None
    ensures WaitsOn(st, st.idle) == None
    ensures forall r, t :: t in Queue(st, r) ==> t in st.flags && t != st.current && t != st.idle
    ensures forall r :: Queue(st, r) != [] ==> Queue(st, r)[0] !in Queue(st, r)[1..]
  {
    hide Tables;
    IdleRests(st, {});
    forall r, t | t in Queue(st, r) ensures t in st.flags && t != st.current && t != st.idle {
      QueuedAtAll(st, r, t);
      NotQueued(st, {}, st.current);
      assert st.current !in Queue(st, r);
    }
    forall r | Queue(st, r) != [] ensures Queue(st, r)[0] !in Queue(st, r)[1..] {
      HeadOnce(st, r);
    }
  }

  /** The state just before a switch: no task that is queued to run is the one that runs, or the idle task. */
  ghost predicate Leaving(st: State) {
    && Tables(st) && WaitsOn(st, st.idle) == None && FlagOf(st, st.current) != Running
    && st.current != st.idle && st.current !in Queue(st, st.run)
    && forall t :: t in Queue(st, st.run) ==> t in st.flags && t != st.idle
  }

  /** When the running task cannot go on, the processor goes to the next. */
  lemma SwtchMeans(st: State)
    requires Leaving(st)
    ensures var st1 := Swtch(st);
            && HandedOn(st, st1, Queue(st, st.run))
            && OtherQueuesSame(st, st1, {st.run}) && OtherTasksSame(st, st1, {st1.current})
            && st1.sems == st.sems && SameMachine(st, st1) && st1.live == st.live
            && StatusOf(st1, st1.current) == StatusOf(st, st1.current) && SameTask(st, st1, st.current)
  {
  }

  /** The running task has joined the end of the queue of r, and the next one runs. */
  ghost predicate Blocked(st: State, st1: State, r: Rsrc) {
    && Queue(st1, r) == Queue(st, r) + [st.current]
    && Waits(st1, st.current, r) && StatusOf(st1, st.current) == ERR_NONE
    && HandedOn(st, st1, Queue(st, st.run)) && st1.live == st.live
    && OtherQueuesSame(st, st1, {r, st.run}) && OtherTasksSame(st, st1, {st.current, st1.current})
  }

  lemma DequeueMeans(st: State, r: Rsrc)
    requires r in st.queue && Queue(st, r) != [] && Queue(st, r)[0] in st.flags
    ensures var st1, t := Dequeue(st, r), Queue(st, r)[0];
            && Queue(st1, r) == Queue(st, r)[1..] && FlagOf(st1, t) == Ready && WaitsOn(st1, t) == None
            && StatusOf(st1, t) == StatusOf(st, t)
            && OtherQueuesSame(st, st1, {r}) && OtherTasksSame(st, st1, {t})
  {
  }

  /** The running task has joined a queue and is about to leave the processor. */
  lemma JoinMeans(st: State, r: Rsrc)
    requires PlacedBut(st, {}) && Runs(st) && st.current != st.idle && r in st.queue && r != st.run
    ensures var st1 := Enqueue(st.(status := st.status[st.current := 0]), r, st.current);
            && Leaving(st1) && Queue(st1, r) == Queue(st, r) + [st.current] && Waits(st1, st.current, r)
            && StatusOf(st1, st.current) == ERR_NONE && st1.live == st.live && st1.halted == st.halted
            && SameMachine(st, st1) && st1.sems == st.sems && st1.current == st.current
            && OtherQueuesSame(st, st1, {r}) && OtherTasksSame(st, st1, {st.current})
  {
    hide Stable, Tables, PlacedBut;
    PlacedFacts(st);
    TableKeys(st);
    var st1 := Enqueue(st.(status := st.status[st.current := 0]), r, st.current);
    TablesKept(st, st1);
    assert Queue(st1, st.run) == Queue(st, st.run);
  }

  lemma SameStatus(st: State, st1: State, t: Task)
    requires SameTask(st, st1, t)
    ensures StatusOf(st1, t) == StatusOf(st, t) && forall r :: Waits(st, t, r) ==> Waits(st1, t, r)
  {
  }

  lemma WaitOnMeans(st: State, r: Rsrc)
    requires PlacedBut(st, {}) && Runs(st) && st.current != st.idle && r in st.queue && r != st.run
    ensures var st1 := WaitOn(st, r); Blocked(st, st1, r) && SameMachine(st, st1) && st1.sems == st.sems
  {
    hide PlacedBut, Runs, Swtch, SameTask, Waits, StatusOf, Queue, Enqueue, Leaving, OtherTasksSame;
    JoinMeans(st, r);
    var st1 := Enqueue(st.(status := st.status[st.current := 0]), r, st.current);
    SwtchMeans(st1);
    SameStatus(st1, Swtch(st1), st.current);
    QueuesChain(st, st1, Swtch(st1), {r}, {st.run});
    TasksChain(st, st1, Swtch(st1), {st.current}, {Swtch(st1).current});
    assert {st.current} + {Swtch(st1).current} == {st.current, Swtch(st1).current};
  }

  lemma TableKeys(st: State)
    requires Tables(st)
    ensures st.flags.Keys == st.waitingOn.Keys == st.status.Keys && st.flags.Keys <= st.queue.Keys
    ensures st.current in st.flags && st.idle in st.flags && st.run in st.queue && st.sems.Keys <= st.queue.Keys
    ensures st.reaper in st.queue && st.reaper != st.run && st.reaperSem in st.sems && st.run !in st.sems
    ensures st.reaper !in st.sems && st.sems.Keys !! st.flags.Keys && st.run !in st.flags && st.reaper !in st.flags
  {
  }

  lemma TablesKept(st: State, st1: State)
    requires Tables(st) && SameMachine(st, st1) && st1.sems == st.sems && st1.current == st.current
    requires st1.queue.Keys == st.queue.Keys && st1.flags.Keys == st.flags.Keys
    requires st1.waitingOn.Keys == st.flags.Keys && st1.status.Keys == st.flags.Keys
    ensures Tables(st1)
  {
  }

  lemma CountMeans(st: State, s: Rsrc, n: int)
    requires s in st.sems
    ensures var st1 := AddCount(st, s, n);
            && s in st1.sems && st1.sems[s] == st.sems[s] + n && SemsSame(st, st1, s)
            && OtherQueuesSame(st, st1, {}) && OtherTasksSame(st, st1, {})
  {
  }

  /** Only the count of a semaphore has changed. */
  lemma CountStable(st: State, s: Rsrc, n: int)
    requires Stable(st) && s in st.sems
    ensures var st1 := AddCount(st, s, n); PlacedBut(st1, {}) && Runs(st1)
  {
    hide PlacedBut;
    StableParts(st);
    CountAdded(st, s, n);
  }

  /** Counting a permit is not seen elsewhere. */
  lemma BlockedAlso(st: State, st0: State, st1: State, r: Rsrc)
    requires Blocked(st0, st1, r) && st0 == st.(sems := st0.sems)
    ensures Blocked(st, st1, r)
  {
    QueuesChain(st, st0, st1, {}, {r, st.run});
    TasksChain(st, st0, st1, {}, {st.current, st1.current});
  }

  /** A permit is taken when there is one; else the caller joins the end of the queue and the next task runs. */
  lemma SemAcquireMeans(st: State, s: Rsrc)
    requires Stable(st) && Allowed(st, SemAcquire(s))
    ensures s !in st.sems ==> Do(st, SemAcquire(s)) == st
    ensures s in st.sems ==>
      var st1 := Do(st, SemAcquire(s));
      && s in st1.sems && st1.sems[s] == st.sems[s] - 1 && SemsSame(st, st1, s) && SameMachine(st, st1)
      && (st.sems[s] > 0 ==>
            && st1.current == st.current && st1.halted == st.halted && st1.live == st.live
            && OtherQueuesSame(st, st1, {}) && OtherTasksSame(st, st1, {}))
      && (st.sems[s] <= 0 ==> Blocked(st, st1, s))
  {
    hide Stable, SameTask, Waits, StatusOf, WaitOn, PlacedBut, Runs;
    StableParts(st);
    TableFacts(st, {});
    if s in st.sems {
      CountMeans(st, s, -1);
    }
    if s in st.sems && st.sems[s] <= 0 {
      CountStable(st, s, -1);
      WaitOnMeans(AddCount(st, s, -1), s);
      BlockedAlso(st, AddCount(st, s, -1), Do(st, SemAcquire(s)), s);
    }
  }

  /** Task t, which was on the queue of r or on none, runs in place of the one that ran, which waits for its turn. */
  ghost predicate RunsAtOnce(st: State, st1: State, t: Task, r: Rsrc) {
    && HasProcessor(st1, t) && StatusOf(st1, t) == ERR_NONE && st1.halted == st.halted && st1.live == st.live
    && Queue(st1, st.run) == Queue(st, st.run) + (if st.current == st.idle then [] else [st.current])
    && (st.current != st.idle ==> Waits(st1, st.current, st.run))
    && OtherQueuesSame(st, st1, {r, st.run}) && OtherTasksSame(st, st1, {st.current, t})
  }

  lemma PreemptMeans(st: State, t: Task, code: int)
    requires Tables(st) && FlagOf(st, st.current) == Running && t in st.flags && t != st.current
    requires WaitsOn(st, t) == None
    ensures var st1 := Preempt(st, t, code);
            && HasProcessor(st1, t) && StatusOf(st1, t) == code && st1.halted == st.halted && st1.live == st.live
            && Queue(st1, st.run) == Queue(st, st.run) + (if st.current == st.idle then [] else [st.current])
            && (st.current != st.idle ==> Waits(st1, st.current, st.run))
            && OtherQueuesSame(st, st1, {st.run}) && OtherTasksSame(st, st1, {st.current, t})
            && SameMachine(st, st1) && st1.sems == st.sems
  {
  }

  lemma RunsAlso(st: State, st0: State, st1: State, t: Task, r: Rsrc)
    requires RunsAtOnce(st0, st1, t, r) && st0 == st.(sems := st0.sems)
    ensures RunsAtOnce(st, st1, t, r)
  {
    QueuesChain(st, st0, st1, {}, {r, st.run});
    TasksChain(st, st0, st1, {}, {st.current, t});
  }

  /** The head of a queue leaves it and runs. */
  lemma HeadRuns(st: State, r: Rsrc)
    requires PlacedBut(st, {}) && Runs(st) && r in st.queue && Queue(st, r) != [] && r != st.run
    ensures var t, st1 := Queue(st, r)[0], Preempt(Dequeue(st, r), Queue(st, r)[0], ERR_NONE);
            && Queue(st1, r) == Queue(st, r)[1..] && RunsAtOnce(st, st1, t, r)
            && SameMachine(st, st1) && st1.sems == st.sems
  {
    hide PlacedBut, Preempt, SameTask, Waits, HasProcessor, StatusOf, OtherTasksSame, Tables;
    PlacedFacts(st);
    TableKeys(st);
    var t, st0 := Queue(st, r)[0], Dequeue(st, r);
    assert t in Queue(st, r);
    DequeueMeans(st, r);
    TablesKept(st, st0);
    PreemptMeans(st0, t, ERR_NONE);
    QueuesChain(st, st0, Preempt(st0, t, ERR_NONE), {r}, {st.run});
    TasksChain(st, st0, Preempt(st0, t, ERR_NONE), {t}, {st.current, t});
    assert {t} + {st.current, t} == {st.current, t};
  }

  lemma SemReleaseMeans(st: State, s: Rsrc)
    requires Stable(st) && Allowed(st, SemRelease(s))
    ensures s !in st.sems ==> Do(st, SemRelease(s)) == st
    ensures s in st.sems ==>
      var st1 := Do(st, SemRelease(s));
      && s in st1.sems && st1.sems[s] == st.sems[s] + 1 && SemsSame(st, st1, s) && SameMachine(st, st1)
      && (Queue(st, s) == [] ==>
            && st1.current == st.current && st1.halted == st.halted
            && OtherQueuesSame(st, st1, {}) && OtherTasksSame(st, st1, {}))
      && (Queue(st, s) != [] ==> Queue(st1, s) == Queue(st, s)[1..] && RunsAtOnce(st, st1, Queue(st, s)[0], s))
  {
    hide Stable, SameTask, Waits, StatusOf, Preempt, Dequeue, PlacedBut, Runs;
    StableParts(st);
    TableFacts(st, {});
    if s in st.sems {
      CountMeans(st, s, 1);
    }
    if s in st.sems && Queue(st, s) != [] {
      CountStable(st, s, 1);
      HeadRuns(AddCount(st, s, 1), s);
      RunsAlso(st, AddCount(st, s, 1), Do(st, SemRelease(s)), Queue(st, s)[0], s);
    }
  }

  /** Who waits for a thread waits on the thread's own queue. */
  lemma ThrWaitMeans(st: State, t: Task)
    requires Stable(st) && Allowed(st, ThrWait(t))
    ensures var st1 := Do(st, ThrWait(t));
            && (t in st.flags ==> Blocked(st, st1, t) && SameMachine(st, st1) && st1.sems == st.sems)
            && (t !in st.flags ==> st1 == st)
  {
    hide Stable, PlacedBut, WaitOn, Blocked, Runs;
    StableParts(st);
    CurrentIsTask(st, {});
    TableFacts(st, {});
    if t in st.flags {
      WaitOnMeans(st, t);
    }
  }

  lemma BlockMeans(st: State, r: Rsrc)
    requires Stable(st) && Allowed(st, Block(r))
    ensures var st1 := Do(st, Block(r)); Blocked(st, st1, r) && SameMachine(st, st1) && st1.sems == st.sems
  {
    hide Stable, PlacedBut, WaitOn, Blocked, Runs;
    StableParts(st);
    WaitOnMeans(st, r);
  }

  lemma WakeOneMeans(st: State, r: Rsrc)
    requires Stable(st) && Allowed(st, WakeOne(r))
    ensures Queue(st, r) == [] ==> Do(st, WakeOne(r)) == st
    ensures Queue(st, r) != [] ==>
      var st1, t := Do(st, WakeOne(r)), Queue(st, r)[0];
      && Queue(st1, r) == Queue(st, r)[1..] && Queue(st1, st.run) == Queue(st, st.run) + [t]
      && Waits(st1, t, st.run) && StatusOf(st1, t) == ERR_NONE
      && st1.current == st.current && st1.live == st.live && st1.halted == st.halted && st1.sems == st.sems
      && OtherQueuesSame(st, st1, {r, st.run}) && OtherTasksSame(st, st1, {t}) && SameMachine(st, st1)
  {
    hide Stable;
  }

  lemma SpawnMeans(st: State, t: Task)
    requires Stable(st) && Allowed(st, Spawn(t))
    ensures var st1 := Do(st, Spawn(t));
            && Queue(st1, st.run) == Queue(st, st.run) + [t] && Waits(st1, t, st.run) && StatusOf(st1, t) == ERR_NONE
            && t in st1.flags && t in st1.queue && Queue(st1, t) == []
            && st1.live == st.live + 1 && st1.current == st.current && st1.halted == st.halted && st1.sems == st.sems
            && OtherQueuesSame(st, st1, {t, st.run}) && OtherTasksSame(st, st1, {t}) && SameMachine(st, st1)
  {
  }

  lemma QueueCreateMeans(st: State, r: Rsrc)
    requires Stable(st) && Allowed(st, QueueCreate(r))
    ensures var st1 := Do(st, QueueCreate(r));
            && r in st1.queue && Queue(st1, r) == [] && OtherQueuesSame(st, st1, {r}) && OtherTasksSame(st, st1, {})
            && SameMachine(st, st1) && st1.current == st.current && st1.live == st.live && st1.halted == st.halted
            && st1.sems == st.sems
  {
  }

  /** So does destroying a port or a queue of senders. */
  lemma QueueDestroyMeans(st: State, r: Rsrc)
    requires Stable(st) && Allowed(st, QueueDestroy(r))
    ensures var st1 := Do(st, QueueDestroy(r));
            GivenUp(st, st1, r) && OtherTasksSame(st, st1, SetOf(Queue(st, r))) && st1.live == st.live
  {
    ReleaseMeans(st, r);
  }

  /** The one that yields goes to the end of the line; alone, it goes on. */
  lemma YieldMeans(st: State)
    requires Stable(st)
    ensures var st1 := Do(st, Yield);
            && (Queue(st, st.run) == [] ==> st1 == st)
            && (Queue(st, st.run) != [] ==>
                  && HandedOn(st, st1, Queue(st, st.run) + if st.current == st.idle then [] else [st.current])
                  && (st.current != st.idle ==> Waits(st1, st.current, st.run))
                  && OtherQueuesSame(st, st1, {st.run}) && OtherTasksSame(st, st1, {st.current, st1.current})
                  && st1.sems == st.sems && st1.live == st.live && SameMachine(st, st1))
  {
    hide Stable, PlacedBut, Runs, Tables;
    StableParts(st);
    PlacedFacts(st);
    TableKeys(st);
    assert Queue(st, st.run) != [] ==> Queue(st, st.run)[0] in Queue(st, st.run);
  }

  lemma SleepForIrqMeans(st: State)
    requires Stable(st) && Allowed(st, SleepForIrq)
    ensures var st1 := Do(st, SleepForIrq);
            && FlagOf(st1, st.current) == SleepIrq && WaitsOn(st1, st.current) == None
            && HandedOn(st, st1, Queue(st, st.run))
            && OtherQueuesSame(st, st1, {st.run}) && OtherTasksSame(st, st1, {st.current, st1.current})
            && st1.sems == st.sems && st1.live == st.live && SameMachine(st, st1)
  {
    hide Stable, PlacedBut, Runs, Swtch, Tables;
    StableParts(st);
    PlacedFacts(st);
    TableKeys(st);
    var st0 := st.(flags := st.flags[st.current := SleepIrq]);
    TablesKept(st, st0);
    assert Queue(st0, st.run) == Queue(st, st.run);
    SwtchMeans(st0);
    SameStatus(st0, Swtch(st0), st.current);
    QueuesChain(st, st0, Swtch(st0), {}, {st.run});
    TasksChain(st, st0, Swtch(st0), {st.current}, {Swtch(st0).current});
  }

  /** An interrupt runs the task that sleeps for it at once, and nothing else does anything. */
  lemma IrqMeans(st: State, t: Task)
    requires Stable(st) && Allowed(st, Irq(t))
    ensures var st1 := Do(st, Irq(t));
            && (FlagOf(st, t) != SleepIrq ==> st1 == st)
            && (FlagOf(st, t) == SleepIrq ==>
                  RunsAtOnce(st, st1, t, st.run) && SameMachine(st, st1) && st1.sems == st.sems)
  {
    hide Stable, PlacedBut, Runs, Preempt, Tables;
    if FlagOf(st, t) == SleepIrq {
      StableParts(st);
      PlacedFacts(st);
      NotQueued(st, {}, t);
      SleeperWaitsOnNothing(st, t);
      PreemptMeans(st, t, ERR_NONE);
      QueuesChain(st, st, Do(st, Irq(t)), {}, {st.run});
    }
  }

  lemma BuriedMeans(st: State)
    requires Tables(st)
    ensures var st1, t := Buried(st), st.current;
            && Queue(st1, st.reaper) == Queue(st, st.reaper) + [t] && FlagOf(st1, t) == Dead
            && WaitsOn(st1, t) == Some(st.reaper)
            && OtherQueuesSame(st, st1, {st.reaper}) && OtherTasksSame(st, st1, {t}) && SameMachine(st, st1)
            && st1.sems == st.sems && st1.live == st.live - 1 && st1.current == t && st1.halted == st.halted
  {
  }

  /** The task, if any, that waits first for the reaper's semaphore: the reaper. */
  function FirstForReaper(st: State): seq<Task> {
    if Queue(st, st.reaperSem) == [] then [] else [Queue(st, st.reaperSem)[0]]
  }

  /** The reaper's semaphore has been counted up, and its first waiter waits for the processor. */
  ghost predicate ReaperTold(st: State, st1: State) {
    var s, woken := st.reaperSem, FirstForReaper(st);
    && Queue(st1, s) == Tail(Queue(st, s)) && Queue(st1, st.run) == Queue(st, st.run) + woken
    && Woken(st1, woken, ERR_NONE) && SameMachine(st, st1)
    && Count(st1, s) == Count(st, s) + 1 && SemsSame(st, st1, s)
    && OtherQueuesSame(st, st1, {s, st.run}) && OtherTasksSame(st, st1, SetOf(woken))
    && st1.live == st.live && st1.current == st.current && st1.halted == st.halted
  }

  lemma WakeReaperMeans(st: State)
    requires Tables(st) && st.reaperSem != st.run
    requires Queue(st, st.reaperSem) != [] ==> Queue(st, st.reaperSem)[0] in st.flags
    ensures ReaperTold(st, WakeReaper(st))
  {
  }

  /** The tasks that a death makes runnable: those that waited for the dying one, and the reaper. */
  function Freed(st: State): seq<Task> {
    Queue(st, st.current) + FirstForReaper(st)
  }

  /** The state in which a dying task gives up the processor. */
  ghost predicate Died(st: State, st1: State) {
    var t := st.current;
    && Queue(st1, st.reaper) == Queue(st, st.reaper) + [t] && FlagOf(st1, t) == Dead
    && WaitsOn(st1, t) == Some(st.reaper) && Queue(st1, t) == [] && st1.live == st.live - 1 && st1.current == t
    && Queue(st1, st.run) == Queue(st, st.run) + Freed(st)
    && Woken(st1, Queue(st, t), ERR_RESOURCE) && Woken(st1, Freed(st)[|Queue(st, t)|..], ERR_NONE)
    && Queue(st1, st.reaperSem) == Tail(Queue(st, st.reaperSem))
    && Count(st1, st.reaperSem) == Count(st, st.reaperSem) + 1 && SemsSame(st, st1, st.reaperSem)
    && OtherQueuesSame(st, st1, {st.reaper, t, st.reaperSem, st.run}) && SameMachine(st, st1)
    && OtherTasksSame(st, st1, {t} + SetOf(Freed(st)))
  }

  lemma OneResource(st: State, r: Rsrc, t: Task)
    requires Stable(st) && t in Queue(st, r)
    ensures WaitsOn(st, t) == Some(r)
  {
    hide Tables, QueuedAt;
    QueuedAtAll(st, r, t);
  }

  /** The three queues that a death touches have no task in common. */
  lemma ApartQueues(st: State)
    requires Stable(st)
    ensures st.current !in Queue(st, st.current)
    ensures Queue(st, st.reaperSem) != [] ==>
      Queue(st, st.reaperSem)[0] in st.flags && Queue(st, st.reaperSem)[0] !in Queue(st, st.current)
  {
    hide Stable, PlacedBut, Runs, Tables;
    StableParts(st);
    PlacedFacts(st);
    TableKeys(st);
    if Queue(st, st.reaperSem) != [] {
      var h := Queue(st, st.reaperSem)[0];
      assert h in Queue(st, st.reaperSem);
      OneResource(st, st.reaperSem, h);
      if h in Queue(st, st.current) {
        OneResource(st, st.current, h);
      }
    }
  }

  /** Those that waited for the dying task have been woken. */
  ghost predicate Mourned(st: State, st1: State) {
    var t := st.current;
    && Queue(st1, st.reaper) == Queue(st, st.reaper) + [t] && FlagOf(st1, t) == Dead
    && WaitsOn(st1, t) == Some(st.reaper) && Queue(st1, t) == [] && st1.live == st.live - 1 && st1.current == t
    && Queue(st1, st.run) == Queue(st, st.run) + Queue(st, t) && Woken(st1, Queue(st, t), ERR_RESOURCE)
    && OtherQueuesSame(st, st1, {st.reaper, t, st.run}) && SameMachine(st, st1)
    && OtherTasksSame(st, st1, {t} + SetOf(Queue(st, t))) && st1.sems == st.sems && st1.halted == st.halted
  }

  lemma MournedMeans(st: State)
    requires Tables(st) && st.current !in Queue(st, st.current) && st.current != st.reaper && st.current != st.run
    ensures Mourned(st, WakeAll(Buried(st), st.current))
  {
    hide Buried, WakeAll, OtherTasksSame, Woken, Queue, StatusOf, FlagOf, WaitsOn;
    TableKeys(st);
    var t, b := st.current, Buried(st);
    BuriedMeans(st);
    WakeAllQueues(b, t);
    WakeAllWoken(b, t);
    WakeAllElse(b, t);
    var w := WakeAll(b, t);
    QueuesChain(st, b, w, {st.reaper}, {t, st.run});
    TasksChain(st, b, w, {t}, SetOf(Queue(st, t)));
    assert {st.reaper} + {t, st.run} == {st.reaper, t, st.run};
    OneSame(b, w, SetOf(Queue(st, t)), t);
  }

  lemma OneSame(st: State, st1: State, ts: set<Task>, t: Task)
    requires OtherTasksSame(st, st1, ts) && t !in ts
    ensures FlagOf(st1, t) == FlagOf(st, t) && WaitsOn(st1, t) == WaitsOn(st, t) && StatusOf(st1, t) == StatusOf(st, t)
  {
    assert SameTask(st, st1, t);
  }

  /** The reaper's semaphore and its queue are as they were when the waiters have been woken. */
  lemma MournedTables(st: State)
    requires Stable(st) && st.current != st.idle && st.current != st.run
    ensures var w := WakeAll(Buried(st), st.current);
            Tables(w) && (Queue(w, st.reaperSem) != [] ==> Queue(w, st.reaperSem)[0] in w.flags)
  {
    hide WakeAll, Buried, Tables, QueuedAt, Accounted, OffQueues;
    StableParts(st);
    BuriedKeeps(st);
    var b := Buried(st);
    WakeAllBut(b, {}, st.current);
    var w := WakeAll(b, st.current);
    if Queue(w, st.reaperSem) != [] {
      HeadIsTask(w, {}, st.reaperSem);
    }
  }

  lemma DiedFrom(st: State, w: State, p: State)
    requires Mourned(st, w) && ReaperTold(w, p) && Queue(w, st.reaperSem) == Queue(st, st.reaperSem)
    requires st.current !in FirstForReaper(st) && st.current != st.run && st.current != st.reaperSem
    requires st.reaper != st.run && st.reaper != st.reaperSem
    requires forall i :: 0 <= i < |Queue(st, st.current)| ==> Queue(st, st.current)[i] !in SetOf(FirstForReaper(st))
    ensures Died(st, p)
  {
    hide OtherTasksSame, Woken, Queue, StatusOf, FlagOf, WaitsOn;
    var t, s, woken := st.current, st.reaperSem, FirstForReaper(st);
    assert FirstForReaper(w) == woken && Freed(st)[|Queue(st, t)|..] == woken;
    assert Queue(st, st.run) + Queue(st, t) + woken == Queue(st, st.run) + Freed(st);
    WokenKept(w, p, Queue(st, t), ERR_RESOURCE, SetOf(woken));
    OneSame(w, p, SetOf(woken), t);
    QueuesChain(st, w, p, {st.reaper, t, st.run}, {s, st.run});
    TasksChain(st, w, p, {t} + SetOf(Queue(st, t)), SetOf(woken));
    assert {t} + SetOf(Queue(st, t)) + SetOf(woken) == {t} + SetOf(Freed(st));
    assert {st.reaper, t, st.run} + {s, st.run} == {st.reaper, t, s, st.run};
  }

  lemma DiedMeans(st: State)
    requires Stable(st) && st.current != st.idle && st.current != st.run
    ensures Died(st, Parting(st)) && Parting(st).halted == st.halted
  {
    hide Stable, PlacedBut, Runs, Tables, Buried, WakeAll, WakeReaper, OtherTasksSame, Woken, Died;
    hide StatusOf, FlagOf, WaitsOn;
    StableParts(st);
    ApartQueues(st);
    PlacedFacts(st);
    TableKeys(st);
    BuriedMeans(st);
    MournedMeans(st);
    MournedTables(st);
    var w := WakeAll(Buried(st), st.current);
    assert Queue(w, st.reaperSem) == Queue(st, st.reaperSem);
    WakeReaperMeans(w);
    DiedFrom(st, w, Parting(st));
  }

  /** A dying task is ready to leave the processor. */
  lemma DeadLeaves(st: State)
    requires Stable(st) && Allowed(st, Terminate)
    ensures st.current != st.run && Died(st, Parting(st)) && Leaving(Parting(st)) && Parting(st).halted == st.halted
  {
    hide Parting, Stable, Tables, QueuedAt, Accounted, OffQueues, OtherTasksSame, Woken;
    PartingKeeps(st);
    DiedMeans(st);
    var p := Parting(st);
    StableParts(st);
    PlacedFacts(st);
    TableKeys(st);
    IdleRests(p, {});
    forall t | t in Queue(p, p.run) ensures t in p.flags && t != p.idle && t != p.current {
      QueuedAtAll(p, p.run, t);
    }
  }

  lemma FreedStatus(st: State, st1: State, w: Task)
    requires Died(st, st1)
    ensures w in Queue(st, st.current) ==> StatusOf(st1, w) == ERR_RESOURCE
    ensures Queue(st, st.reaperSem) != [] && w == Queue(st, st.reaperSem)[0] ==> StatusOf(st1, w) == ERR_NONE
    ensures w in Freed(st) ==> Waits(st1, w, st.run)
    ensures w !in Freed(st) && w != st.current ==> SameTask(st, st1, w)
  {
    hide StatusOf, FlagOf, WaitsOn, Queue;
    var ts := Queue(st, st.current);
    if w in ts {
      var i :| 0 <= i < |ts| && ts[i] == w;
      assert Waits(st1, ts[i], st1.run);
    }
    if Queue(st, st.reaperSem) != [] && w == Queue(st, st.reaperSem)[0] {
      assert Freed(st)[|ts|..] == [w];
      assert Waits(st1, Freed(st)[|ts|..][0], st1.run);
    }
  }

  /** A task that dies goes to the end of the reaper's queue, and those that wait for it are freed, and the reaper. */
  lemma TerminateMeans(st: State)
    requires Stable(st) && Allowed(st, Terminate)
    ensures var st1, t := Do(st, Terminate), st.current;
            && Queue(st1, st.reaper) == Queue(st, st.reaper) + [t] && FlagOf(st1, t) == Dead
            && WaitsOn(st1, t) == Some(st.reaper) && Queue(st1, t) == [] && st1.live == st.live - 1
            && HandedOn(st, st1, Queue(st, st.run) + Freed(st))
            && Queue(st1, st.reaperSem) == Tail(Queue(st, st.reaperSem))
            && Count(st1, st.reaperSem) == Count(st, st.reaperSem) + 1 && SemsSame(st, st1, st.reaperSem)
            && OtherQueuesSame(st, st1, {st.reaper, t, st.reaperSem, st.run}) && SameMachine(st, st1)
  {
    hide Stable, PlacedBut, Runs, Tables, Parting, Swtch, OtherTasksSame, Woken, Queue, StatusOf, FlagOf, WaitsOn;
    DeadLeaves(st);
    TerminatedIs(st);
    var t, p, st1 := st.current, Parting(st), Do(st, Terminate);
    SwtchMeans(p);
    QueuesChain(st, p, st1, {st.reaper, t, st.reaperSem, st.run}, {st.run});
    assert {st.reaper, t, st.reaperSem, st.run} + {st.run} == {st.reaper, t, st.reaperSem, st.run};
    SameStatus(p, st1, t);
  }

  /** And each of them finds out how: those that waited by a lost resource, the reaper by success. */
  lemma TerminateWakes(st: State, w: Task)
    requires Stable(st) && Allowed(st, Terminate)
    ensures var st1 := Do(st, Terminate);
            && (w in Queue(st, st.current) ==> StatusOf(st1, w) == ERR_RESOURCE)
            && (Queue(st, st.reaperSem) != [] && w == Queue(st, st.reaperSem)[0] ==> StatusOf(st1, w) == ERR_NONE)
            && (w in Freed(st) ==> w == st1.current || Waits(st1, w, st.run))
            && (w !in Freed(st) && w !in {st.current, st1.current} ==> SameTask(st, st1, w))
  {
    hide Stable, PlacedBut, Runs, Tables, Parting, Swtch, OtherTasksSame, Woken, Queue, StatusOf, FlagOf, WaitsOn;
    DeadLeaves(st);
    TerminatedIs(st);
    var t, p, st1 := st.current, Parting(st), Do(st, Terminate);
    SwtchMeans(p);
    FreedStatus(st, p, w);
    if w != st1.current {
      assert SameTask(p, st1, w);
      SameStatus(p, st1, w);
    }
  }

  lemma ForgetMeans(st: State, t: Task)
    ensures var st1 := st.(flags := st.flags - {t}, waitingOn := st.waitingOn - {t}, status := st.status - {t});
            && OtherQueuesSame(st, st1, {}) && OtherTasksSame(st, st1, {t})
            && t !in st1.flags && t !in st1.status && t !in st1.waitingOn
  {
  }

  /** A task on the reaper's queue is on no other. */
  lemma DeadElsewhere(st: State, r: Rsrc)
    requires Stable(st) && Queue(st, st.reaper) != [] && r != st.reaper
    ensures Queue(st, st.reaper)[0] !in Queue(st, r)
  {
    var t := Queue(st, st.reaper)[0];
    if t in Queue(st, r) {
      var j :| 0 <= j < |Queue(st, r)| && Queue(st, r)[j] == t;
      OneQueue(st, st.reaper, 0, r, j);
      assert false;
    }
  }

  /** The reaper destroys the first dead task: nothing of it is left, and those that waited for it lose it. */
  lemma ReapMeans(st: State)
    requires Stable(st) && Allowed(st, Reap)
    ensures var st1, t := Do(st, Reap), Queue(st, st.reaper)[0];
            && t !in st1.flags && t !in st1.status && t !in st1.waitingOn && t !in st1.queue
            && Queue(st1, st.reaper) == Queue(st, st.reaper)[1..]
            && Queue(st1, st.run) == Queue(st, st.run) + Queue(st, t)
            && Woken(st1, Queue(st, t), ERR_RESOURCE) && SemsSame(st, st1, t) && t !in st1.sems
            && OtherQueuesSame(st, st1, {st.reaper, t, st.run})
            && OtherTasksSame(st, st1, SetOf(Queue(st, t)) + {t}) && SameMachine(st, st1)
            && st1.current == st.current && st1.live == st.live && st1.halted == st.halted
  {
    hide Stable, PlacedBut, Runs, Tables, Dequeue, RsrcRelease, SameTask, OtherTasksSame, Woken, Queue;
    StableParts(st);
    PlacedFacts(st);
    TableKeys(st);
    var t := Queue(st, st.reaper)[0];
    assert t in Queue(st, st.reaper);
    DeadElsewhere(st, t);
    DequeueMeans(st, st.reaper);
    var st0 := Dequeue(st, st.reaper);
    DequeueConstants(st, st.reaper);
    ReleaseMeans(st0, t);
    var st1 := RsrcRelease(st0, t);
    ForgetMeans(st1, t);
    var st2 := Do(st, Reap);
    assert Queue(st0, t) == Queue(st, t);
    WokenKept(st1, st2, Queue(st, t), ERR_RESOURCE, {t});
    QueuesChain(st, st0, st1, {st.reaper}, {t, st.run});
    QueuesChain(st, st1, st2, {st.reaper} + {t, st.run}, {});
    TasksChain(st, st0, st1, {t}, SetOf(Queue(st, t)));
    TasksChain(st, st1, st2, {t} + SetOf(Queue(st, t)), {t});
    assert {t} + SetOf(Queue(st, t)) + {t} == SetOf(Queue(st, t)) + {t};
    assert {st.reaper} + {t, st.run} + {} == {st.reaper, t, st.run};
  }
}
