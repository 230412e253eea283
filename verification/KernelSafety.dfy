/** Every step of the kernel keeps the scheduler's invariant. */
module KernelSafety {
  import opened KernelState

  /** The invariant while some tasks are on their way from one place to another, on no queue. */
  ghost predicate PlacedBut(st: State, out: set<Task>) {
    && Tables(st)
    && (forall r, i :: QueuedAt(st, r, i))
    && (forall t :: t in st.flags && t !in out ==> Accounted(st, t))
    && (forall t :: t in out ==> t in st.flags && OffQueues(st, t))
  }

  ghost predicate OffQueues(st: State, t: Task) {
    forall r :: t !in Queue(st, r)
  }

  lemma NoneOut(st: State)
    ensures Placed(st) <==> PlacedBut(st, {})
  {
    hide Tables, QueuedAt, Accounted, OffQueues;
  }

  lemma QueuedAtAll(st: State, r: Rsrc, t: Task)
    requires (forall i :: QueuedAt(st, r, i)) && t in Queue(st, r)
    ensures t in st.flags && t != st.idle && WaitsOn(st, t) == Some(r)
    ensures (FlagOf(st, t) == Waiting || FlagOf(st, t) == Dead)
  {
    var i :| 0 <= i < |Queue(st, r)| && Queue(st, r)[i] == t;
    assert QueuedAt(st, r, i);
  }

  /** A task with another flag than those of queued tasks is on no queue. */
  lemma NotQueued(st: State, out: set<Task>, t: Task)
    requires PlacedBut(st, out)
    requires (t == st.idle || FlagOf(st, t) == Running || FlagOf(st, t) == SleepIrq || FlagOf(st, t) == Ready)
    ensures OffQueues(st, t)
  {
    hide Tables, QueuedAt, Accounted;
    forall r ensures t !in Queue(st, r) {
      if t in Queue(st, r) {
        QueuedAtAll(st, r, t);
      }
    }
  }

  lemma TakeOut(st: State, out: set<Task>, t: Task)
    requires PlacedBut(st, out) && t in st.flags && OffQueues(st, t)
    ensures PlacedBut(st, out + {t})
  {
    hide Tables, QueuedAt, Accounted, OffQueues;
  }

  lemma EnqueueBut(st: State, out: set<Task>, r: Rsrc, t: Task)
    requires PlacedBut(st, out) && t in out && r in st.queue && t != st.idle
    ensures PlacedBut(Enqueue(st, r, t), out - {t})
    ensures forall q :: q != r ==> Queue(Enqueue(st, r, t), q) == Queue(st, q)
    ensures Queue(Enqueue(st, r, t), r) == Queue(st, r) + [t]
  {
    var st1 := Enqueue(st, r, t);
    forall q, i ensures QueuedAt(st1, q, i) {
      EnqueueQueued(st, out, r, t, q, i);
    }
    forall x | x in st1.flags && x !in out - {t} ensures Accounted(st1, x) {
      if x != t {
        assert Accounted(st, x);
      }
    }
    forall x | x in out - {t} ensures OffQueues(st1, x) {
      EnqueueOff(st, r, t, x);
    }
  }

  lemma EnqueueOff(st: State, r: Rsrc, t: Task, x: Task)
    requires OffQueues(st, x) && x != t
    ensures OffQueues(Enqueue(st, r, t), x)
  {
    forall q ensures x !in Queue(Enqueue(st, r, t), q) {
      assert x !in Queue(st, q);
      assert Queue(Enqueue(st, r, t), q) == if q == r then Queue(st, r) + [t] else Queue(st, q);
    }
  }

  lemma OffSame(st: State, st1: State, x: Task)
    requires OffQueues(st, x) && st1.queue == st.queue
    ensures OffQueues(st1, x)
  {
    forall q ensures x !in Queue(st1, q) {
      assert Queue(st1, q) == Queue(st, q);
    }
  }

  lemma EnqueueQueued(st: State, out: set<Task>, r: Rsrc, t: Task, q: Rsrc, i: int)
    requires PlacedBut(st, out) && t in out && t != st.idle
    ensures QueuedAt(Enqueue(st, r, t), q, i)
  {
    assert QueuedAt(st, q, i);
    assert OffQueues(st, t);
    hide Tables, Accounted, OnQueue;
  }

  lemma DequeueBut(st: State, out: set<Task>, r: Rsrc)
    requires PlacedBut(st, out) && Queue(st, r) != []
    ensures var t := Queue(st, r)[0];
            && PlacedBut(Dequeue(st, r), out + {t}) && t !in out && t != st.idle
            && WaitsOn(Dequeue(st, r), t) == None && FlagOf(st, t) != Running
            && forall q :: q != r ==> Queue(Dequeue(st, r), q) == Queue(st, q)
    ensures Queue(Dequeue(st, r), r) == Queue(st, r)[1..]
  {
    var t, st1 := Queue(st, r)[0], Dequeue(st, r);
    assert QueuedAt(st, r, 0);
    forall q, i ensures QueuedAt(st1, q, i) {
      DequeueQueued(st, r, q, i);
    }
    forall x | x in st1.flags && x !in out + {t} ensures Accounted(st1, x) {
      DequeueAccounted(st, r, x);
    }
    forall x | x in out + {t} ensures OffQueues(st1, x) {
      DequeueOff(st, out, r, x);
    }
  }

  lemma DequeueQueued(st: State, r: Rsrc, q: Rsrc, i: int)
    requires (forall q, i :: QueuedAt(st, q, i)) && Queue(st, r) != []
    ensures QueuedAt(Dequeue(st, r), q, i)
  {
    assert QueuedAt(st, q, i) && QueuedAt(st, q, i + 1) && QueuedAt(st, r, 0);
  }

  lemma DequeueAccounted(st: State, r: Rsrc, x: Task)
    requires Queue(st, r) != [] && x != Queue(st, r)[0] && Accounted(st, x)
    ensures Accounted(Dequeue(st, r), x)
  {
  }

  lemma DequeueOff(st: State, out: set<Task>, r: Rsrc, x: Task)
    requires PlacedBut(st, out) && Queue(st, r) != [] && x in out + {Queue(st, r)[0]}
    ensures OffQueues(Dequeue(st, r), x)
  {
    var t, st1 := Queue(st, r)[0], Dequeue(st, r);
    if x == t {
      assert QueuedAt(st, r, 0);
      HeadOnce(st, r);
      forall q ensures x !in Queue(st1, q) {
        if q != r && x in Queue(st, q) {
          QueuedAtAll(st, q, x);
        }
      }
    } else {
      forall q ensures x !in Queue(st1, q) {
        assert x !in Queue(st, q);
        assert Queue(st1, q) == if q == r then Queue(st, r)[1..] else Queue(st, q);
      }
    }
  }

  lemma HeadOnce(st: State, r: Rsrc)
    requires (forall i :: QueuedAt(st, r, i)) && Queue(st, r) != []
    ensures Queue(st, r)[0] !in Queue(st, r)[1..]
  {
    forall i | 0 <= i < |Queue(st, r)| - 1 ensures Queue(st, r)[1..][i] != Queue(st, r)[0] {
      assert QueuedAt(st, r, i + 1);
    }
  }

  /** The task that gives up the processor has a place of its own. */
  ghost predicate Parked(st: State, t: Task) {
    OnQueue(st, t) || (WaitsOn(st, t) == None && (t == st.idle || FlagOf(st, t) == SleepIrq))
  }

  lemma ResumeBut(st: State, out: set<Task>, t: Task)
    requires PlacedBut(st, out) && t in out && WaitsOn(st, t) == None && (st.current == t || Parked(st, st.current))
    ensures PlacedBut(Resume(st, t), out - {t})
    ensures FlagOf(Resume(st, t), t) == Running && forall q :: Queue(Resume(st, t), q) == Queue(st, q)
  {
    var st1 := Resume(st, t);
    forall q, i ensures QueuedAt(st1, q, i) {
      assert QueuedAt(st, q, i) && OffQueues(st, t);
    }
    forall x | x in st1.flags && x !in out - {t} ensures Accounted(st1, x) {
      if x != t {
        assert Accounted(st, x);
      }
    }
    forall x | x in out - {t} ensures OffQueues(st1, x) {
      OffSame(st, st1, x);
    }
  }

  /** A state that differs only in counts and status codes. */
  ghost predicate SamePlaces(st: State, st1: State) {
    && st1.queue == st.queue && st1.waitingOn == st.waitingOn && st1.flags == st.flags && st1.current == st.current
    && st1.run == st.run && st1.reaper == st.reaper && st1.reaperSem == st.reaperSem && st1.idle == st.idle
    && st1.sems.Keys == st.sems.Keys && st1.status.Keys == st.status.Keys
  }

  lemma SamePlaced(st: State, st1: State, out: set<Task>)
    requires PlacedBut(st, out) && SamePlaces(st, st1)
    ensures PlacedBut(st1, out)
  {
    forall q, i ensures QueuedAt(st1, q, i) {
      assert QueuedAt(st, q, i);
    }
    forall x | x in st1.flags && x !in out ensures Accounted(st1, x) {
      assert Accounted(st, x);
    }
    forall x | x in out ensures OffQueues(st1, x) {
      OffSame(st, st1, x);
    }
  }

  lemma OutSame(st: State, out: set<Task>, out': set<Task>)
    requires PlacedBut(st, out) && out == out'
    ensures PlacedBut(st, out')
  {
  }

  /** A task whose record is as before and that was queued elsewhere than at r's head still is. */
  lemma TaskWakeBut(st: State, out: set<Task>, t: Task, code: int)
    requires PlacedBut(st, out) && t in out && t != st.idle
    ensures PlacedBut(TaskWake(st, t, code), out - {t})
    ensures forall q :: q != st.run ==> Queue(TaskWake(st, t, code), q) == Queue(st, q)
    ensures Queue(TaskWake(st, t, code), st.run) == Queue(st, st.run) + [t]
  {
    var st1 := st.(status := st.status[t := code]);
    SamePlaced(st, st1, out);
    EnqueueBut(st1, out, st.run, t);
  }

  /** The head of r's queue is woken. */
  lemma WakeHead(st: State, out: set<Task>, r: Rsrc, code: int)
    requires PlacedBut(st, out) && Queue(st, r) != [] && r != st.run
    ensures var st1 := TaskWake(Dequeue(st, r), Queue(st, r)[0], code);
            && PlacedBut(st1, out)
            && Queue(st1, r) == Queue(st, r)[1..] && Queue(st1, st.run) == Queue(st, st.run) + [Queue(st, r)[0]]
            && forall q :: q != r && q != st.run ==> Queue(st1, q) == Queue(st, q)
  {
    hide PlacedBut, Queue, TaskWake, Dequeue;
    var t := Queue(st, r)[0];
    DequeueBut(st, out, r);
    DequeueConstants(st, r);
    TaskWakeBut(Dequeue(st, r), out + {t}, t, code);
    OutSame(TaskWake(Dequeue(st, r), t, code), out + {t} - {t}, out);
  }

  lemma DequeueConstants(st: State, r: Rsrc)
    requires Queue(st, r) != []
    ensures Dequeue(st, r) ==
      st.(queue := Dequeue(st, r).queue, flags := Dequeue(st, r).flags, waitingOn := Dequeue(st, r).waitingOn)
  {
  }

  /** Two states that agree but for the places of tasks and their status codes. */
  ghost predicate SameRest(st: State, st1: State) {
    && st1.sems == st.sems && st1.queue.Keys == st.queue.Keys && st1.flags.Keys == st.flags.Keys && st1.idle == st.idle
    && st1.live == st.live && st1.run == st.run && st1.reaper == st.reaper && st1.reaperSem == st.reaperSem
  }

  lemma DetachedAndWoken(st: State, r: Rsrc, code: int)
    requires Queue(st, r) != []
    ensures TaskWake(DetachHead(st, r), Queue(st, r)[0], code) == TaskWake(Dequeue(st, r), Queue(st, r)[0], code)
  {
  }

  lemma WokenRest(st: State, out: set<Task>, r: Rsrc, code: int)
    requires PlacedBut(st, out) && Queue(st, r) != []
    ensures var st1 := TaskWake(Dequeue(st, r), Queue(st, r)[0], code);
            SameRest(st, st1) && st1.current == st.current && st1.halted == st.halted
            && FlagOf(st1, Queue(st, r)[0]) == Waiting
            && forall x :: x != Queue(st, r)[0] ==> FlagOf(st1, x) == FlagOf(st, x) && WaitsOn(st1, x) == WaitsOn(st, x)
  {
    HeadIsTask(st, out, r);
    hide PlacedBut;
  }

  /** All that wait on r are moved to the end of the run queue, in order. */
  lemma {:induction false} WakeAllBut(st: State, out: set<Task>, r: Rsrc)
    requires PlacedBut(st, out) && r != st.run
    ensures var st1 := WakeAll(st, r);
            && PlacedBut(st1, out) && SameRest(st, st1) && st1.current == st.current && st1.halted == st.halted
            && Queue(st1, r) == [] && Queue(st1, st.run) == Queue(st, st.run) + Queue(st, r)
            && (forall q :: q != r && q != st.run ==> Queue(st1, q) == Queue(st, q))
            && (forall x :: x !in Queue(st, r) ==> FlagOf(st1, x) == FlagOf(st, x) && WaitsOn(st1, x) == WaitsOn(st, x))
    decreases |Queue(st, r)|
  {
    hide PlacedBut, TaskWake, Dequeue, DetachHead, FlagOf, WaitsOn, Queue;
    if Queue(st, r) != [] {
      DetachedAndWoken(st, r, ERR_RESOURCE);
      WakeHead(st, out, r, ERR_RESOURCE);
      WokenRest(st, out, r, ERR_RESOURCE);
      WakeAllBut(TaskWake(DetachHead(st, r), Queue(st, r)[0], ERR_RESOURCE), out, r);
    }
  }

  /** The resource r and the task of that address, if there is one, are gone. */
  function Removed(st: State, r: Rsrc): State {
    st.(queue := st.queue - {r}, sems := st.sems - {r}, flags := st.flags - {r}, waitingOn := st.waitingOn - {r},
        status := st.status - {r})
  }

  lemma RemoveBut(st: State, out: set<Task>, r: Rsrc)
    requires PlacedBut(st, out) && Queue(st, r) == [] && r != st.run && r != st.reaper && r != st.reaperSem
    requires r in st.flags ==> r in out && r != st.current && r != st.idle
    ensures PlacedBut(Removed(st, r), out - {r}) && forall q :: Queue(Removed(st, r), q) == Queue(st, q)
  {
    var st1 := Removed(st, r);
    forall q, i ensures QueuedAt(st1, q, i) {
      RemovedQueued(st, out, r, q, i);
    }
    forall x | x in st1.flags && x !in out - {r} ensures Accounted(st1, x) {
      assert Accounted(st, x);
    }
    forall x | x in out - {r} ensures OffQueues(st1, x) {
      forall q ensures x !in Queue(st1, q) {
        assert OffQueues(st, x);
        assert x !in Queue(st, q);
      }
    }
  }

  lemma RemovedQueued(st: State, out: set<Task>, r: Rsrc, q: Rsrc, i: int)
    requires PlacedBut(st, out) && Queue(st, r) == [] && (r in st.flags ==> r in out)
    ensures QueuedAt(Removed(st, r), q, i)
  {
    assert QueuedAt(st, q, i);
    if r in st.flags {
      assert OffQueues(st, r);
      assert r !in Queue(st, q);
    }
    hide Tables, Accounted;
  }

  lemma IdleRests(st: State, out: set<Task>)
    requires PlacedBut(st, out) && st.idle !in out
    ensures WaitsOn(st, st.idle) == None && OffQueues(st, st.idle)
  {
    NotQueued(st, out, st.idle);
    assert Accounted(st, st.idle);
  }

  /** The running task takes a place at the end of the run queue. */
  lemma RequeueCurrent(st: State, out: set<Task>)
    requires PlacedBut(st, out) && FlagOf(st, st.current) == Running && st.current != st.idle && st.current !in out
    ensures var st1 := Enqueue(st, st.run, st.current);
            && PlacedBut(st1, out) && SameRest(st, st1) && st1.current == st.current && st1.halted == st.halted
            && FlagOf(st1, st.current) == Waiting
            && Queue(st1, st.run) == Queue(st, st.run) + [st.current]
            && (forall q :: q != st.run ==> Queue(st1, q) == Queue(st, q))
            && (forall x :: x != st.current ==> FlagOf(st1, x) == FlagOf(st, x) && WaitsOn(st1, x) == WaitsOn(st, x))
  {
    CurrentIsTask(st, out);
    hide Accounted, QueuedAt, OffQueues, Queue;
    NotQueued(st, out, st.current);
    TakeOut(st, out, st.current);
    EnqueueBut(st, out + {st.current}, st.run, st.current);
    OutSame(Enqueue(st, st.run, st.current), out + {st.current} - {st.current}, out);
  }

  lemma CurrentIsTask(st: State, out: set<Task>)
    requires PlacedBut(st, out)
    ensures st.current in st.flags && st.idle in st.flags && st.run in st.queue && st.reaper in st.queue
    ensures st.flags.Keys <= st.queue.Keys && st.run != st.reaper && st.current != st.run && st.current != st.reaper
  {
  }

  /** The head of the run queue is resumed. */
  lemma ResumeHead(st: State)
    requires PlacedBut(st, {}) && Queue(st, st.run) != []
    requires Parked(st, st.current)
    ensures var t := Queue(st, st.run)[0];
            var st1 := Resume(Dequeue(st, st.run), t);
            && PlacedBut(st1, {}) && SameRest(st, st1) && st1.current == t && st1.halted == st.halted
            && FlagOf(st1, t) == Running && WaitsOn(st1, t) == None
            && Queue(st1, st.run) == Queue(st, st.run)[1..]
            && forall q :: q != st.run ==> Queue(st1, q) == Queue(st, q)
  {
    var t, d := Queue(st, st.run)[0], Dequeue(st, st.run);
    DequeueBut(st, {}, st.run);
    StillParked(st);
    ResumeBut(d, {} + {t}, t);
    OutSame(Resume(d, t), {} + {t} - {t}, {});
    HeadIsTask(st, {}, st.run);
    hide PlacedBut, Parked, Queue;
  }

  lemma HeadIsTask(st: State, out: set<Task>, r: Rsrc)
    requires PlacedBut(st, out) && Queue(st, r) != []
    ensures Queue(st, r)[0] in st.flags && r in st.queue
  {
    assert QueuedAt(st, r, 0);
  }

  lemma StillParked(st: State)
    requires Queue(st, st.run) != [] && Parked(st, st.current)
    ensures var d := Dequeue(st, st.run); d.current == Queue(st, st.run)[0] || Parked(d, d.current)
  {
  }

  /** What switching does: unless the machine halts, a task runs that was first in line, or the idle task. */
  lemma SwtchKeeps(st: State)
    requires PlacedBut(st, {}) && (FlagOf(st, st.current) == Running ==> WaitsOn(st, st.current) == None)
    ensures var st1 := Swtch(st);
            && SameRest(st, st1) && (forall q :: q != st.run ==> Queue(st1, q) == Queue(st, q))
            && (st1.halted || st.halted
                || (PlacedBut(st1, {}) && FlagOf(st1, st1.current) == Running && WaitsOn(st1, st1.current) == None))
  {
    hide PlacedBut, Enqueue, Dequeue, Resume, FlagOf, WaitsOn, Parked;
    CurrentIsTask(st, {});
    var running := FlagOf(st, st.current) == Running;
    if Queue(st, st.run) == [] && running {
    } else {
      var st1 := if running && st.current != st.idle then Enqueue(st, st.run, st.current) else st;
      if running && st.current != st.idle {
        RequeueCurrent(st, {});
      }
      CurrentParked(st1);
      if Queue(st1, st.run) != [] {
        ResumeHead(st1);
      } else {
        IdleRests(st1, {});
        TakeOut(st1, {}, st1.idle);
        ResumeBut(st1, {} + {st1.idle}, st1.idle);
        OutSame(Resume(st1, st1.idle), {} + {st1.idle} - {st1.idle}, {});
        ResumeRest(st1, st1.idle);
      }
    }
  }

  lemma CurrentParked(st: State)
    requires PlacedBut(st, {}) && (FlagOf(st, st.current) == Running ==> st.current == st.idle)
    ensures Parked(st, st.current)
  {
    assert Accounted(st, st.current);
    if st.current == st.idle {
      IdleRests(st, {});
    }
  }

  lemma ResumeRest(st: State, t: Task)
    requires t in st.flags
    ensures var st1 := Resume(st, t);
      SameRest(st, st1) && st1.halted == st.halted && st1.current == t && WaitsOn(st1, t) == WaitsOn(st, t)
  {
  }
}
