/**
 The two wait queues of a port of openblt/kernel/port.c are queues of the scheduler: what a stretch of port_send or
 port_recv does to them is one blocking or one waking, or nothing.
 */
module PortScheduling {
  import K = KernelState
  import KernelSafety
  import KernelSteps
  import P = PortState

  /** The receivers wait on the port itself, the senders on its queue for senders. */
  ghost predicate Shown(ps: P.State, ks: K.State, port: K.Rsrc, sendQueue: K.Rsrc) {
    && port != sendQueue && K.PlainQueue(ks, port) && K.PlainQueue(ks, sendQueue)
    && K.Queue(ks, port) == ps.receivers && K.Queue(ks, sendQueue) == ps.senders
  }

  ghost predicate AllAllowed(ks: K.State, steps: seq<K.Step>) {
    |steps| <= 1 && (steps != [] ==> K.Allowed(ks, steps[0]))
  }

  function After(ks: K.State, steps: seq<K.Step>): K.State
    requires |steps| <= 1 && (steps != [] ==> K.Allowed(ks, steps[0]))
  {
    if steps == [] then ks else K.Do(ks, steps[0])
  }

  lemma SamePlain(ks: K.State, step: K.Step, r: K.Rsrc)
    requires K.Stable(ks) && !ks.halted && K.Allowed(ks, step) && (step.Block? || step.WakeOne?) && K.PlainQueue(ks, r)
    ensures K.PlainQueue(K.Do(ks, step), r)
  {
    if step.Block? {
      hide K.Stable, KernelSafety.PlacedBut, K.WaitOn;
      KernelSteps.StableParts(ks);
      KernelSteps.WaitOnKeeps(ks, step.r);
    } else if K.Queue(ks, step.r) != [] {
      assert K.QueuedAt(ks, step.r, 0);
    }
  }

  /** Blocking and waking at one queue leave the other plain queues alone. */
  lemma OneQueueMoves(ks: K.State, step: K.Step, r: K.Rsrc)
    requires K.Stable(ks) && !ks.halted && K.Allowed(ks, step) && K.PlainQueue(ks, r)
    requires step == K.Block(r) || step == K.WakeOne(r)
    ensures var ks1 := K.Do(ks, step);
      && (ks1.halted || K.Stable(ks1))
      && K.Queue(ks1, r) == (if step.Block? then K.Queue(ks, r) + [ks.current]
                             else if K.Queue(ks, r) == [] then [] else K.Queue(ks, r)[1..])
      && forall q :: q != r && q != ks.run ==> K.Queue(ks1, q) == K.Queue(ks, q)
  {
    hide K.Stable, K.WaitOn, K.TaskWake, K.Dequeue, K.Queue;
    if step.Block? {
      KernelSteps.BlockKeeps(ks, r);
    } else if K.Queue(ks, r) != [] {
      KernelSteps.WakeOneKeeps(ks, r);
    }
  }

  function SendSteps(ps: P.State, port: K.Rsrc, sendQueue: K.Rsrc): seq<K.Step> {
    if |ps.msgs| < P.MAX_MSGCOUNT then [K.WakeOne(port)]
    else if ps.nowait then []
    else [K.Block(sendQueue)]
  }

  function ReceiveSteps(ps: P.State, port: K.Rsrc, sendQueue: K.Rsrc): seq<K.Step> {
    if ps.msgs == [] then (if ps.nowait then [] else [K.Block(port)])
    else if |ps.msgs| <= P.MAX_MSGCOUNT then [K.WakeOne(sendQueue)]
    else []
  }

  /** A stretch of port_send by the running task, in the scheduler. */
  lemma SendSchedules(ps: P.State, ks: K.State, t: P.Task, m: P.Message, port: K.Rsrc, sendQueue: K.Rsrc)
    requires Shown(ps, ks, port, sendQueue) && K.Stable(ks) && !ks.halted && ks.current == t && t != ks.idle
    ensures AllAllowed(ks, SendSteps(ps, port, sendQueue))
    ensures var ks1 := After(ks, SendSteps(ps, port, sendQueue));
      Shown(P.Send(ps, t, m), ks1, port, sendQueue) && (ks1.halted || K.Stable(ks1))
  {
    hide K.Stable, K.Do, K.Queue, K.PlainQueue;
    var steps := SendSteps(ps, port, sendQueue);
    if steps != [] {
      OneQueueMoves(ks, steps[0], steps[0].r);
      SamePlain(ks, steps[0], port);
      SamePlain(ks, steps[0], sendQueue);
      NotRun(ks, port);
      NotRun(ks, sendQueue);
    }
  }

  /** A stretch of port_recv by the running task, in the scheduler. */
  lemma ReceiveSchedules(ps: P.State, ks: K.State, t: P.Task, port: K.Rsrc, sendQueue: K.Rsrc)
    requires Shown(ps, ks, port, sendQueue) && K.Stable(ks) && !ks.halted && ks.current == t && t != ks.idle
    requires |ps.msgs| <= P.MAX_MSGCOUNT
    ensures AllAllowed(ks, ReceiveSteps(ps, port, sendQueue))
    ensures var ks1 := After(ks, ReceiveSteps(ps, port, sendQueue));
      Shown(P.Receive(ps, t), ks1, port, sendQueue) && (ks1.halted || K.Stable(ks1))
  {
    hide K.Stable, K.Do, K.Queue, K.PlainQueue;
    var steps := ReceiveSteps(ps, port, sendQueue);
    if steps != [] {
      OneQueueMoves(ks, steps[0], steps[0].r);
      SamePlain(ks, steps[0], port);
      SamePlain(ks, steps[0], sendQueue);
      NotRun(ks, port);
      NotRun(ks, sendQueue);
    }
  }

  lemma NotRun(ks: K.State, r: K.Rsrc)
    requires K.PlainQueue(ks, r)
    ensures r != ks.run
  {
  }
}
