/**
 Message passing through one port of openblt/kernel/port.c, once the port is known: a queue
 of at most sixteen messages, senders that wait while it is full and receivers that wait while it is
 empty.  A woken task does not run at once; when it does, it looks again.
 */
module PortState {

  const MAX_MSGCOUNT := 16

  type Task = int

  datatype Message = Message(from: int, to: int, code: int, data: seq<int>)

  /** What a task is doing at this port. */
  datatype Place = Elsewhere | Sending(m: Message) | SendWoken(m: Message) | Receiving | RecvWoken

  /** The last two record all messages accepted and all handed out so far. */
  datatype State = State(msgs: seq<Message>, senders: seq<Task>, receivers: seq<Task>, at: map<Task, Place>,
    nowait: bool,
                         sent: seq<Message>, received: seq<Message>)

  function PlaceOf(st: State, t: Task): Place { if t in st.at then st.at[t] else Elsewhere }

  function Put(st: State, t: Task, p: Place): State { st.(at := st.at[t := p]) }

  /** The head of a queue is woken. */
  function WakeReceiver(st: State): State {
    if st.receivers == [] then st
    else Put(st.(receivers := st.receivers[1..]), st.receivers[0], RecvWoken)
  }

  function WakeSender(st: State): State {
    if st.senders == [] then st
    else
      var t := st.senders[0];
      var p := PlaceOf(st, t);
      Put(st.(senders := st.senders[1..]), t, if p.Sending? then SendWoken(p.m) else p)
  }

  /** One stretch of port_send: until the message is queued, or the task waits, or is told that it would. */
  function Send(st: State, t: Task, m: Message): State {
    if |st.msgs| >= MAX_MSGCOUNT then
      if st.nowait then Put(st, t, Elsewhere)
      else Put(st.(senders := st.senders + [t]), t, Sending(m))
    else
      WakeReceiver(Put(st.(msgs := st.msgs + [m], sent := st.sent + [m]), t, Elsewhere))
  }

  /** One stretch of port_recv: until a message is taken, or the task waits, or is told that it would. */
  function Receive(st: State, t: Task): State {
    if st.msgs == [] then
      if st.nowait then Put(st, t, Elsewhere)
      else Put(st.(receivers := st.receivers + [t]), t, Receiving)
    else
      var st1 := Put(st.(received := st.received + [st.msgs[0]]), t, Elsewhere);
      var st2 := if st1.senders != [] && |st1.msgs| <= MAX_MSGCOUNT then WakeSender(st1) else st1;
      st2.(msgs := st2.msgs[1..])
  }

  datatype Step =
    | StartSend(t: Task, m: Message)
    | ResumeSend(t: Task)
    | StartReceive(t: Task)
    | ResumeReceive(t: Task)
    | SetNowait(on: bool)

  ghost predicate Enabled(st: State, step: Step) {
    match step
    case StartSend(t, m) => PlaceOf(st, t) == Elsewhere
    case ResumeSend(t) => PlaceOf(st, t).SendWoken?
    case StartReceive(t) => PlaceOf(st, t) == Elsewhere
    case ResumeReceive(t) => PlaceOf(st, t) == RecvWoken
    case SetNowait(on) => true
  }

  function Do(st: State, step: Step): State {
    match step
    case StartSend(t, m) => Send(st, t, m)
    case ResumeSend(t) => if PlaceOf(st, t).SendWoken? then Send(st, t, PlaceOf(st, t).m) else st
    case StartReceive(t) => Receive(st, t)
    case ResumeReceive(t) => Receive(st, t)
    case SetNowait(on) => st.(nowait := on)
  }

  function Create(): State { State([], [], [], map[], false, [], []) }

  ghost function SendersWoken(st: State): set<Task> { set t | t in st.at && st.at[t].SendWoken? }
  ghost function ReceiversWoken(st: State): set<Task> { set t | t in st.at && st.at[t] == RecvWoken }

  ghost predicate Distinct(q: seq<Task>) { forall i, j :: 0 <= i < j < |q| ==> q[i] != q[j] }

  /** The queues hold exactly the tasks that wait. */
  ghost predicate QueuesTell(st: State) {
    && Distinct(st.senders) && Distinct(st.receivers)
    && (forall t :: t in st.senders <==> PlaceOf(st, t).Sending?)
    && (forall t :: t in st.receivers <==> PlaceOf(st, t) == Receiving)
  }

  /** With a receiver waiting there is a woken one for every message, and with a sender waiting one for every gap. */
  ghost predicate Valid(st: State) {
    && QueuesTell(st)
    && |st.msgs| <= MAX_MSGCOUNT
    && (st.receivers != [] ==> |st.msgs| <= |ReceiversWoken(st)|)
    && (st.senders != [] ==> |st.msgs| + |SendersWoken(st)| >= MAX_MSGCOUNT)
    && st.sent == st.received + st.msgs
  }

  lemma WokenPut(st: State, t: Task, p: Place)
    ensures var st1, was := Put(st, t, p), PlaceOf(st, t);
            && |SendersWoken(st1)|
              == |SendersWoken(st)| + (if p.SendWoken? then 1 else 0) - (if was.SendWoken? then 1 else 0)
            && |ReceiversWoken(st1)|
              == |ReceiversWoken(st)| + (if p == RecvWoken then 1 else 0) - (if was == RecvWoken then 1 else 0)
  {
    SendersPut(st, t, p);
    ReceiversPut(st, t, p);
  }

  lemma OneChanged(s: set<Task>, s1: set<Task>, t: Task)
    requires forall x :: x != t ==> (x in s <==> x in s1)
    ensures |s1| == |s| + (if t in s1 then 1 else 0) - (if t in s then 1 else 0)
  {
    forall x ensures x in s - {t} <==> x in s1 - {t} {
      if x != t {
        assert x in s <==> x in s1;
      }
    }
    assert s - {t} == s1 - {t};
    assert s == if t in s then (s - {t}) + {t} else s - {t};
    assert s1 == if t in s1 then (s1 - {t}) + {t} else s1 - {t};
  }

  lemma SendersPut(st: State, t: Task, p: Place)
    ensures |SendersWoken(Put(st, t, p))| ==
      |SendersWoken(st)| + (if p.SendWoken? then 1 else 0) - (if PlaceOf(st, t).SendWoken? then 1 else 0)
  {
    OneChanged(SendersWoken(st), SendersWoken(Put(st, t, p)), t);
  }

  lemma ReceiversPut(st: State, t: Task, p: Place)
    ensures |ReceiversWoken(Put(st, t, p))| ==
      |ReceiversWoken(st)| + (if p == RecvWoken then 1 else 0) - (if PlaceOf(st, t) == RecvWoken then 1 else 0)
  {
    OneChanged(ReceiversWoken(st), ReceiversWoken(Put(st, t, p)), t);
  }

  lemma SameWoken(st: State, st1: State)
    requires st.at == st1.at
    ensures SendersWoken(st) == SendersWoken(st1) && ReceiversWoken(st) == ReceiversWoken(st1)
  {
  }

  lemma HeadOnce(q: seq<Task>)
    requires q != [] && Distinct(q)
    ensures Distinct(q[1..]) && forall t :: t in q[1..] <==> t in q && t != q[0]
  {
    forall t | t in q && t != q[0] ensures t in q[1..] {
      var i :| 0 <= i < |q| && q[i] == t;
      assert q[1..][i - 1] == t;
    }
  }

  lemma WakeReceiverTells(st: State)
    requires QueuesTell(st)
    ensures var st1 := WakeReceiver(st);
            && QueuesTell(st1) && SendersWoken(st1) == SendersWoken(st)
            && |ReceiversWoken(st1)| == |ReceiversWoken(st)| + (if st.receivers != [] then 1 else 0)
  {
    if st.receivers != [] {
      var t, st0 := st.receivers[0], st.(receivers := st.receivers[1..]);
      HeadOnce(st.receivers);
      SameWoken(st, st0);
      assert t in st.receivers;
      WokenPut(st0, t, RecvWoken);
      SameSenders(st0, t);
    }
  }

  lemma SameSenders(st: State, t: Task)
    requires !PlaceOf(st, t).SendWoken?
    ensures SendersWoken(Put(st, t, RecvWoken)) == SendersWoken(st)
  {
    assert forall x :: x in SendersWoken(Put(st, t, RecvWoken)) <==> x in SendersWoken(st);
  }

  lemma WakeSenderTells(st: State)
    requires QueuesTell(st)
    ensures var st1 := WakeSender(st);
            && QueuesTell(st1)
            && |SendersWoken(st1)| == |SendersWoken(st)| + (if st.senders != [] then 1 else 0)
            && |ReceiversWoken(st1)| == |ReceiversWoken(st)|
            && st1.msgs == st.msgs && st1.receivers == st.receivers && st1.sent == st.sent
            && st1.received == st.received
            && st1.nowait == st.nowait && st1.senders == if st.senders == [] then [] else st.senders[1..]
  {
    if st.senders != [] {
      var t, st0 := st.senders[0], st.(senders := st.senders[1..]);
      HeadOnce(st.senders);
      SameWoken(st, st0);
      assert t in st.senders;
      WokenPut(st0, t, SendWoken(PlaceOf(st, t).m));
    }
  }

  lemma SendKeeps(st: State, t: Task, m: Message)
    requires Valid(st) && (PlaceOf(st, t) == Elsewhere || PlaceOf(st, t).SendWoken?)
    ensures Valid(Send(st, t, m))
  {
    hide SendersWoken, ReceiversWoken;
    if |st.msgs| >= MAX_MSGCOUNT {
      if st.nowait {
        WokenPut(st, t, Elsewhere);
      } else {
        var st0 := st.(senders := st.senders + [t]);
        SameWoken(st, st0);
        WokenPut(st0, t, Sending(m));
      }
    } else {
      var st0 := st.(msgs := st.msgs + [m], sent := st.sent + [m]);
      SameWoken(st, st0);
      WokenPut(st0, t, Elsewhere);
      WakeReceiverTells(Put(st0, t, Elsewhere));
      assert st.received + (st.msgs + [m]) == (st.received + st.msgs) + [m];
    }
  }

  lemma ReceiveKeeps(st: State, t: Task)
    requires Valid(st) && (PlaceOf(st, t) == Elsewhere || PlaceOf(st, t) == RecvWoken)
    ensures Valid(Receive(st, t))
  {
    hide SendersWoken, ReceiversWoken;
    if st.msgs == [] {
      if st.nowait {
        WokenPut(st, t, Elsewhere);
      } else {
        var st0 := st.(receivers := st.receivers + [t]);
        SameWoken(st, st0);
        WokenPut(st0, t, Receiving);
      }
    } else {
      TakeKeeps(st, t);
    }
  }

  lemma TakeKeeps(st: State, t: Task)
    requires Valid(st) && (PlaceOf(st, t) == Elsewhere || PlaceOf(st, t) == RecvWoken) && st.msgs != []
    ensures Valid(Receive(st, t))
  {
    hide SendersWoken, ReceiversWoken, WakeSender, Distinct;
    var st0 := st.(received := st.received + [st.msgs[0]]);
    SameWoken(st, st0);
    WokenPut(st0, t, Elsewhere);
    var st1 := Put(st0, t, Elsewhere);
    WakeSenderTells(st1);
    var st2 := WakeSender(st1);
    SameTold(st2, st2.(msgs := st2.msgs[1..]));
    SameWoken(st2, st2.(msgs := st2.msgs[1..]));
    assert (st.received + [st.msgs[0]]) + st.msgs[1..] == st.received + st.msgs;
    assert Receive(st, t) == st2.(msgs := st2.msgs[1..]) by {
      NoSenderNoWake(st1);
    }
  }

  lemma NoSenderNoWake(st: State)
    ensures st.senders == [] ==> WakeSender(st) == st
  {
  }

  lemma SameTold(st: State, st1: State)
    requires QueuesTell(st) && st1.at == st.at && st1.senders == st.senders && st1.receivers == st.receivers
    ensures QueuesTell(st1)
  {
    forall t ensures PlaceOf(st1, t) == PlaceOf(st, t) {
    }
  }

  lemma StepKeeps(st: State, step: Step)
    requires Valid(st) && Enabled(st, step)
    ensures Valid(Do(st, step))
  {
    hide Valid, Send, Receive;
    match step {
      case StartSend(t, m) => SendKeeps(st, t, m);
      case ResumeSend(t) => SendKeeps(st, t, PlaceOf(st, t).m);
      case StartReceive(t) => ReceiveKeeps(st, t);
      case ResumeReceive(t) => ReceiveKeeps(st, t);
      case SetNowait(on) => NowaitKeeps(st, on);
    }
  }

  lemma NowaitKeeps(st: State, on: bool)
    requires Valid(st)
    ensures Valid(st.(nowait := on))
  {
    SameWoken(st, st.(nowait := on));
  }

  lemma CreateValid()
    ensures Valid(Create())
  {
  }

  lemma NoneWoken(st: State)
    requires forall t :: !PlaceOf(st, t).SendWoken? && PlaceOf(st, t) != RecvWoken
    ensures SendersWoken(st) == {} && ReceiversWoken(st) == {}
  {
    forall t ensures t !in SendersWoken(st) && t !in ReceiversWoken(st) {
      assert !PlaceOf(st, t).SendWoken? && PlaceOf(st, t) != RecvWoken;
    }
  }
}
