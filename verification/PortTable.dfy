/**
 All ports of openblt/kernel/port.c together.  A port may be slaved to another one, its master: what is sent to it goes
 to the master's queue.  Ports and slave links are fixed while a run lasts, and messages are no longer than a page.
 */
module PortTable {
  import opened PortState

  type PortId = int

  /** The slaved ports, each with its master's id, which need not be a port's. */
  datatype Table = Table(ports: map<PortId, State>, slaved: map<PortId, PortId>)

  datatype Target = At(port: PortId) | NoSource | NoDestination | NoMaster

  /** The port whose queue takes what is sent from one port to another. */
  function Resolve(tb: Table, src: PortId, dst: PortId): Target {
    if src !in tb.ports then NoSource
    else if dst !in tb.ports then NoDestination
    else if dst !in tb.slaved then At(dst)
    else if tb.slaved[dst] !in tb.ports || tb.slaved[dst] in tb.slaved then NoMaster
    else At(tb.slaved[dst])
  }

  datatype Step =
    | SendTo(src: PortId, dst: PortId, t: Task, code: int, data: seq<int>)
    | ReceiveAt(port: PortId, t: Task)
    | SendAgain(port: PortId, t: Task)
    | ReceiveAgain(port: PortId, t: Task)
    | NowaitAt(port: PortId, on: bool)

  /** The task is in no call at any port. */
  ghost predicate Free(tb: Table, t: Task) { forall p | p in tb.ports :: PlaceOf(tb.ports[p], t) == Elsewhere }

  ghost predicate Enabled(tb: Table, step: Step) {
    match step
    case SendTo(src, dst, t, code, data) => Free(tb, t)
    case ReceiveAt(port, t) => Free(tb, t)
    case SendAgain(port, t) => port in tb.ports && PlaceOf(tb.ports[port], t).SendWoken?
    case ReceiveAgain(port, t) => port in tb.ports && PlaceOf(tb.ports[port], t) == RecvWoken
    case NowaitAt(port, on) => true
  }

  /** The port at which something happens, and what; a call that fails does nothing. */
  function Here(tb: Table, step: Step): Option<(PortId, PortState.Step)> {
    match step
    case SendTo(src, dst, t, code, data) =>
      var target := Resolve(tb, src, dst);
      if target.At? then Some((target.port, StartSend(t, Message(src, dst, code, data)))) else None
    case ReceiveAt(port, t) => if port in tb.ports then Some((port, StartReceive(t))) else None
    case SendAgain(port, t) => if port in tb.ports then Some((port, ResumeSend(t))) else None
    case ReceiveAgain(port, t) => if port in tb.ports then Some((port, ResumeReceive(t))) else None
    case NowaitAt(port, on) => if port in tb.ports then Some((port, SetNowait(on))) else None
  }

  datatype Option<T> = None | Some(value: T)

  lemma HerePort(tb: Table, step: Step)
    ensures Here(tb, step).Some? ==> Here(tb, step).value.0 in tb.ports
  {
  }

  function DoAt(tb: Table, p: PortId, step: PortState.Step): Table
    requires p in tb.ports
  {
    tb.(ports := tb.ports[p := PortState.Do(tb.ports[p], step)])
  }

  function Do(tb: Table, step: Step): Table {
    HerePort(tb, step);
    match Here(tb, step)
    case None => tb
    case Some(what) => DoAt(tb, what.0, what.1)
  }

  ghost predicate Valid(tb: Table) { forall p | p in tb.ports :: PortState.Valid(tb.ports[p]) }

  /** Messages that wait at a port, for room or to be received, or have been at it, are those sent to it. */
  ghost predicate Addressed(tb: Table, p: PortId)
    requires p in tb.ports
  {
    var st := tb.ports[p];
    && (forall i | 0 <= i < |st.sent| :: Resolve(tb, st.sent[i].from, st.sent[i].to) == At(p))
    && (forall t | PlaceOf(st, t).Sending? || PlaceOf(st, t).SendWoken? ::
          Resolve(tb, PlaceOf(st, t).m.from, PlaceOf(st, t).m.to) == At(p))
  }

  lemma SameResolve(tb: Table, step: Step, src: PortId, dst: PortId)
    ensures Do(tb, step).ports.Keys == tb.ports.Keys && Do(tb, step).slaved == tb.slaved
    ensures Resolve(Do(tb, step), src, dst) == Resolve(tb, src, dst)
  {
    HerePort(tb, step);
  }

  lemma StepValid(tb: Table, step: Step)
    requires Valid(tb) && Enabled(tb, step)
    ensures Valid(Do(tb, step))
  {
    hide PortState.Valid, PortState.Do;
    HerePort(tb, step);
    if Here(tb, step).Some? {
      var p, what := Here(tb, step).value.0, Here(tb, step).value.1;
      StepEnabled(tb, step);
      PortState.StepKeeps(tb.ports[p], what);
    }
  }

  lemma StepEnabled(tb: Table, step: Step)
    requires Enabled(tb, step) && Here(tb, step).Some?
    ensures var p, what := Here(tb, step).value.0, Here(tb, step).value.1;
      p in tb.ports && PortState.Enabled(tb.ports[p], what)
  {
    HerePort(tb, step);
  }

  /** The message, if any, that a step of the port puts into its queue. */
  function Accepts(st: State, step: PortState.Step): seq<Message> {
    if |st.msgs| >= MAX_MSGCOUNT then []
    else
      match step
      case StartSend(t, m) => [m]
      case ResumeSend(t) => if PlaceOf(st, t).SendWoken? then [PlaceOf(st, t).m] else []
      case _ => []
  }

  lemma SentGrows(st: State, step: PortState.Step)
    ensures PortState.Do(st, step).sent == st.sent + Accepts(st, step)
  {
  }

  /** The places of tasks after a step of the port. */
  lemma SendersCarry(st: State, step: PortState.Step, t: Task)
    requires var q := PlaceOf(PortState.Do(st, step), t); q.Sending? || q.SendWoken?
    ensures var q, p := PlaceOf(PortState.Do(st, step), t), PlaceOf(st, t);
      ((p.Sending? || p.SendWoken?) && p.m == q.m) || (step.StartSend? && step.t == t && q.m == step.m)
  {
    hide SendersWoken;
  }

  lemma StepAddressed(tb: Table, step: Step, p: PortId)
    requires p in tb.ports && Addressed(tb, p)
    ensures p in Do(tb, step).ports && Addressed(Do(tb, step), p)
  {
    hide PortState.Do, Resolve;
    HerePort(tb, step);
    var tb1 := Do(tb, step);
    forall src, dst ensures Resolve(tb1, src, dst) == Resolve(tb, src, dst) {
      SameResolve(tb, step, src, dst);
    }
    if Here(tb, step).Some? && Here(tb, step).value.0 == p {
      var st, what := tb.ports[p], Here(tb, step).value.1;
      var st1 := PortState.Do(st, what);
      SentGrows(st, what);
      forall t | PlaceOf(st1, t).Sending? || PlaceOf(st1, t).SendWoken?
        ensures Resolve(tb1, PlaceOf(st1, t).m.from, PlaceOf(st1, t).m.to) == At(p)
      {
        SendersCarry(st, what, t);
      }
    }
  }

  // Whole runs

  ghost predicate Run(states: seq<Table>, steps: seq<Step>) {
    && |states| == |steps| + 1
    && (forall p | p in states[0].ports :: states[0].ports[p] == Create())
    && forall i | 0 <= i < |steps| :: Enabled(states[i], steps[i]) && states[i + 1] == Do(states[i], steps[i])
  }

  /** In every state of every run each port keeps what a single port keeps, and the links stay. */
  lemma {:induction false} RunValid(states: seq<Table>, steps: seq<Step>, i: nat)
    requires Run(states, steps) && i <= |steps|
    ensures Valid(states[i]) && states[i].ports.Keys == states[0].ports.Keys && states[i].slaved == states[0].slaved
    ensures forall p | p in states[i].ports :: Addressed(states[i], p)
  {
    hide PortState.Valid, Do, Enabled, Resolve;
    if i == 0 {
      CreateValid();
    } else {
      RunValid(states, steps, i - 1);
      StepValid(states[i - 1], steps[i - 1]);
      SameResolve(states[i - 1], steps[i - 1], 0, 0);
      forall p | p in states[i].ports ensures Addressed(states[i], p) {
        StepAddressed(states[i - 1], steps[i - 1], p);
      }
    }
  }

  /** At each port messages come out once each, in the order in which they were accepted, at most sixteen queued. */
  lemma InOrderOnce(states: seq<Table>, steps: seq<Step>, i: nat, p: PortId)
    requires Run(states, steps) && i <= |steps| && p in states[0].ports
    ensures p in states[i].ports && var st := states[i].ports[p];
      st.sent == st.received + st.msgs && |st.msgs| <= MAX_MSGCOUNT
  {
    RunValid(states, steps, i);
  }

  /** At no port a wakeup is lost: once its woken tasks have run, receivers wait only if it is empty, senders only if it
      is full. */
  lemma NoLostWakeup(states: seq<Table>, steps: seq<Step>, i: nat, p: PortId)
    requires Run(states, steps) && i <= |steps| && p in states[i].ports
    requires forall t :: !PlaceOf(states[i].ports[p], t).SendWoken? && PlaceOf(states[i].ports[p], t) != RecvWoken
    ensures states[i].ports[p].receivers != [] ==> states[i].ports[p].msgs == []
    ensures states[i].ports[p].senders != [] ==> |states[i].ports[p].msgs| == MAX_MSGCOUNT
  {
    RunValid(states, steps, i);
    NoneWoken(states[i].ports[p]);
  }

  /** The messages that port p accepted in the first n steps. */
  ghost function Accepted(states: seq<Table>, steps: seq<Step>, n: nat, p: PortId): seq<Message>
    requires Run(states, steps) && n <= |steps|
  {
    if n == 0 then []
    else
      var what := Here(states[n - 1], steps[n - 1]);
      Accepted(states, steps, n - 1, p) +
      (if what.Some? && what.value.0 == p && p in states[n - 1].ports then Accepts(states[n - 1].ports[p], what.value.1)
       else [])
  }

  /** What has been received at a port and what is still queued are all the messages it accepted, once each, in
      order. */
  lemma {:induction false} AcceptedComeOut(states: seq<Table>, steps: seq<Step>, n: nat, p: PortId)
    requires Run(states, steps) && n <= |steps| && p in states[0].ports
    ensures p in states[n].ports && var st := states[n].ports[p];
      st.received + st.msgs == Accepted(states, steps, n, p) == st.sent
  {
    hide PortState.Valid, PortState.Do, Enabled, Accepts, Resolve;
    InOrderOnce(states, steps, n, p);
    if n > 0 {
      AcceptedComeOut(states, steps, n - 1, p);
      var tb, step := states[n - 1], steps[n - 1];
      HerePort(tb, step);
      if Here(tb, step).Some? && Here(tb, step).value.0 == p {
        SentGrows(tb.ports[p], Here(tb, step).value.1);
      }
    }
  }

  /**
   A message sent to a slave while its master has room is accepted by the master and by no other port; so it comes out
   once, at the master.
   */
  lemma SlaveServed(states: seq<Table>, steps: seq<Step>, n: nat, dst: PortId, p: PortId)
    requires Run(states, steps) && n < |steps| && steps[n].SendTo? && steps[n].dst == dst && p in states[0].ports
    requires dst in states[0].slaved && Resolve(states[n], steps[n].src, dst) == At(states[0].slaved[dst])
    requires states[0].slaved[dst] in states[n].ports && |states[n].ports[states[0].slaved[dst]].msgs| < MAX_MSGCOUNT
    ensures Accepted(states, steps, n + 1, p) == Accepted(states, steps, n, p) +
      (if p == states[0].slaved[dst] then [Message(steps[n].src, dst, steps[n].code, steps[n].data)] else [])
  {
    RunValid(states, steps, n);
  }

  /** Whatever is queued, waits for room or comes out at a port was sent to it or to a slave of it. */
  lemma OnlyItsOwn(states: seq<Table>, steps: seq<Step>, n: nat, p: PortId, m: Message)
    requires Run(states, steps) && n <= |steps| && p in states[n].ports
    requires m in states[n].ports[p].received + states[n].ports[p].msgs
    ensures m.to in states[0].ports
    ensures p !in states[0].slaved
    ensures m.to == p || (m.to in states[0].slaved && states[0].slaved[m.to] == p)
  {
    RunValid(states, steps, n);
    assert m in states[n].ports[p].sent;
  }

  /** A slave's own queue stays empty: who receives there waits, or is told that it would. */
  lemma SlavesStayEmpty(states: seq<Table>, steps: seq<Step>, n: nat, p: PortId)
    requires Run(states, steps) && n <= |steps| && p in states[n].ports && p in states[0].slaved
    ensures states[n].ports[p].msgs == []
  {
    RunValid(states, steps, n);
    if states[n].ports[p].msgs != [] {
      OnlyItsOwn(states, steps, n, p, states[n].ports[p].msgs[0]);
    }
  }
}
