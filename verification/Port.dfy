/** The bodies of port_send and port_recv of openblt/kernel/port.c, a stretch between two waits at a time. */
module PortFunctions {
  import opened PortState
  import opened PortTable

  const ERR_RESOURCE := -2
  const ERR_MEMORY := -3
  const ERR_SENDPORT := -4
  const ERR_RECVPORT := -5
  const ERR_WOULD_BLOCK := -6

  const USER_END := 0x400000
  const PAGE := 4096

  /** Copies as much as the buffer takes. */
  method CopyOut(data: seq<int>, size: nat) returns (buffer: seq<int>)
    ensures buffer <= data && |buffer| == if size < |data| then size else |data|
  {
    var i := 0;
    buffer := [];
    while i < |data| && i < size
      invariant 0 <= i <= |data| && i <= size && buffer == data[..i]
    {
      buffer := buffer + [data[i]];
      i := i + 1;
    }
  }

  /** The call returned with a code, or the task waits. */
  datatype Outcome = Returned(code: int) | Waits

  class Port {
    var msgs: seq<Message>
    var msgcount: int
    var senders: seq<Task>
    var receivers: seq<Task>
    var at: map<Task, Place>
    var nowait: bool
    ghost var sent: seq<Message>
    ghost var received: seq<Message>

    ghost function Now(): PortState.State
      reads this
    {
      State(msgs, senders, receivers, at, nowait, sent, received)
    }

    /** port_create. */
    constructor ()
      ensures Consistent() && Now() == Create()
    {
      msgs, msgcount, senders, receivers, at, nowait := [], 0, [], [], map[], false;
      sent, received := [], [];
      new;
      CreateValid();
    }

    ghost predicate Consistent()
      reads this
    {
      msgcount == |msgs| && PortState.Valid(Now())
    }

    /** Takes the head off a queue and lets it look again. */
    method WakeFirstReceiver()
      modifies this
      ensures Now() == WakeReceiver(old(Now())) && msgcount == old(msgcount)
    {
      if receivers != [] {
        at := at[receivers[0] := RecvWoken];
        receivers := receivers[1..];
      }
    }

    method WakeFirstSender()
      modifies this
      ensures Now() == WakeSender(old(Now())) && msgcount == old(msgcount)
    {
      if senders != [] {
        var t := senders[0];
        var p := if t in at then at[t] else Elsewhere;
        at := at[t := if p.Sending? then SendWoken(p.m) else p];
        senders := senders[1..];
      }
    }

    /** port_send once the port is known, from its start or from where it waited; a message that is longer than a page
        or too far up in memory is refused when there is room. */
    method PortSend(t: Task, m: Message, addr: nat) returns (r: Outcome)
      requires Consistent() && (PlaceOf(Now(), t) == Elsewhere || PlaceOf(Now(), t).SendWoken?)
      modifies this
      ensures r == Returned(ERR_MEMORY) <==> old(msgcount) < MAX_MSGCOUNT && (addr > USER_END || |m.data| > PAGE)
      ensures r != Returned(ERR_MEMORY) ==> Consistent() && Now() == Send(old(Now()), t, m)
      ensures old(msgcount) < MAX_MSGCOUNT && addr <= USER_END && |m.data| <= PAGE ==> r == Returned(|m.data|)
      ensures old(msgcount) >= MAX_MSGCOUNT ==> r == if nowait then Returned(ERR_WOULD_BLOCK) else Waits
    {
      SendKeeps(Now(), t, m);
      hide PortState.Valid, WakeReceiver;
      ghost var before := Now();
      if msgcount >= MAX_MSGCOUNT {
        if nowait {
          at := at[t := Elsewhere];
          return Returned(ERR_WOULD_BLOCK);
        }
        senders := senders + [t];
        at := at[t := Sending(m)];
        return Waits;
      }
      at := at[t := Elsewhere];
      if addr > USER_END || |m.data| > PAGE {
        return Returned(ERR_MEMORY);
      }
      msgs := msgs + [m];
      sent := sent + [m];
      msgcount := msgcount + 1;
      WakeFirstReceiver();
      WakeLeavesMsgs(before.(msgs := before.msgs + [m], sent := before.sent + [m], at := before.at[t := Elsewhere]));
      r := Returned(|m.data|);
    }

    /** port_recv once the port is known, from its start or from where it waited; as much of the first message is copied
        as the buffer takes. */
    method PortRecv(t: Task, size: nat) returns (r: Outcome, buffer: seq<int>, from: int, code: int)
      requires Consistent() && (PlaceOf(Now(), t) == Elsewhere || PlaceOf(Now(), t) == RecvWoken)
      modifies this
      ensures Consistent() && Now() == Receive(old(Now()), t)
      ensures old(msgs) == [] ==> r == if nowait then Returned(ERR_WOULD_BLOCK) else Waits
      ensures old(msgs) != [] ==> var m := old(msgs)[0];
                from == m.from && code == m.code && r == Returned(|buffer|) && buffer <= m.data
                && |buffer| == if size < |m.data| then size else |m.data|
    {
      ReceiveKeeps(Now(), t);
      hide PortState.Valid, WakeSender;
      ghost var before := Now();
      buffer, from, code := [], 0, 0;
      if msgcount == 0 {
        if nowait {
          at := at[t := Elsewhere];
          return Returned(ERR_WOULD_BLOCK), buffer, from, code;
        }
        receivers := receivers + [t];
        at := at[t := Receiving];
        return Waits, buffer, from, code;
      }
      at := at[t := Elsewhere];
      var m := msgs[0];
      buffer := CopyOut(m.data, size);
      from, code := m.from, m.code;
      received := received + [m];
      ghost var middle := Now();
      if senders != [] && msgcount <= MAX_MSGCOUNT {
        WakeFirstSender();
        WakeLeavesRest(middle);
      }
      msgs := msgs[1..];
      msgcount := msgcount - 1;
      r := Returned(|buffer|);
    }
  }

  lemma WakeLeavesMsgs(st: State)
    ensures WakeReceiver(st).msgs == st.msgs && WakeReceiver(st).nowait == st.nowait
  {
  }

  lemma WakeLeavesRest(st: State)
    ensures WakeSender(st).msgs == st.msgs && WakeSender(st).nowait == st.nowait
  {
  }

  /** What port_recv returns: the first message, as much of it as the buffer takes, or why there is none. */
  predicate Taken(st: PortState.State, size: nat, r: Outcome, buffer: seq<int>, from: int, code: int) {
    if st.msgs == [] then r == if st.nowait then Returned(ERR_WOULD_BLOCK) else Waits
    else
      && from == st.msgs[0].from && code == st.msgs[0].code && r == Returned(|buffer|) && buffer <= st.msgs[0].data
      && |buffer| == if size < |st.msgs[0].data| then size else |st.msgs[0].data|
  }

  /** The ports by their ids, and the links of the slaved ones. */
  class Ports {
    var ports: map<PortId, Port>
    var slaved: map<PortId, PortId>

    ghost function Now(): Table
      reads this, ports.Values
    {
      PortTable.Table(map p | p in ports :: ports[p].Now(), slaved)
    }

    ghost predicate Consistent()
      reads this, ports.Values
    {
      && (forall p | p in ports :: ports[p].Consistent())
      && (forall p, q | p in ports && q in ports && p != q :: ports[p] != ports[q])
    }

    /** No ports yet; the links that some of them are going to have. */
    constructor (slaved: map<PortId, PortId>)
      ensures Consistent() && Now() == PortTable.Table(map[], slaved)
    {
      ports, this.slaved := map[], slaved;
    }

    /** port_create, under an id that no port has. */
    method PortCreate(id: PortId)
      requires Consistent() && id !in ports
      modifies this
      ensures Consistent() && Now() == old(Now()).(ports := old(Now()).ports[id := Create()])
    {
      ghost var tb := Now();
      var port := new Port();
      ports := ports[id := port];
      assert Now().ports == tb.ports[id := Create()];
    }

    /** The beginning of port_send: the port whose queue the message is for. */
    method FindTarget(src: PortId, dst: PortId) returns (target: Target)
      ensures target == Resolve(Now(), src, dst)
      ensures target.At? ==> target.port in ports
    {
      if src !in ports {
        return NoSource;
      }
      if dst !in ports {
        return NoDestination;
      }
      var p := dst;
      if p in slaved {
        p := slaved[p];
        if p !in ports {
          return NoMaster;
        }
        if p in slaved {
          return NoMaster;
        }
      }
      target := At(p);
    }

    lemma SameIds()
      ensures Now().ports.Keys == ports.Keys && Now().slaved == slaved
    {
    }

    lemma PortNow(p: PortId)
      requires Consistent() && p in ports
      ensures p in Now().ports && Now().ports[p] == ports[p].Now() && ports[p].Consistent()
      ensures |ports[p].msgs| == ports[p].msgcount
      ensures forall q | q in ports && q != p :: ports[q] != ports[p]
    {
      hide PortState.Valid;
    }

    /** port_send: the message goes to the destination, or to its master if it is slaved. */
    method PortSend(src: PortId, dst: PortId, t: Task, addr: nat, data: seq<int>, code: int) returns (r: Outcome)
      requires Consistent() && PortTable.Enabled(Now(), SendTo(src, dst, t, code, data))
      modifies ports.Values
      ensures var target := Resolve(old(Now()), src, dst);
        if target.At? && target.port in old(Now()).ports then
          && (r == Returned(ERR_MEMORY) <==>
              |old(Now()).ports[target.port].msgs| < MAX_MSGCOUNT && (addr > USER_END || |data| > PAGE))
          && (r != Returned(ERR_MEMORY) ==>
              Consistent() && Now() == PortTable.Do(old(Now()), SendTo(src, dst, t, code, data)))
        else
          && r == Returned(if target.NoSource? then ERR_SENDPORT
                           else if target.NoDestination? then ERR_RECVPORT else ERR_RESOURCE)
          && Consistent() && Now() == PortTable.Do(old(Now()), SendTo(src, dst, t, code, data))
      ensures src !in ports ==> r == Returned(ERR_SENDPORT) && Now() == old(Now())
      ensures src in ports && dst !in ports ==> r == Returned(ERR_RECVPORT) && Now() == old(Now())
      ensures src in ports && dst in ports && dst in slaved && (slaved[dst] !in ports || slaved[dst] in slaved) ==>
        r == Returned(ERR_RESOURCE) && Now() == old(Now())
    {
      hide PortState.Valid, PortState.Do, Send, Resolve, Now, Consistent, PortTable.Enabled, DoAt, PortTable.Do;
      ghost var tb, step := Now(), SendTo(src, dst, t, code, data);
      var target := FindTarget(src, dst);
      SendIs(tb, src, dst, t, code, data);
      SameIds();
      NoTarget(tb, src, dst);
      match target
      case NoSource => r := Returned(ERR_SENDPORT);
      case NoDestination => r := Returned(ERR_RECVPORT);
      case NoMaster => r := Returned(ERR_RESOURCE);
      case At(p) =>
        FreeThere(tb, step, p, t);
        PortNow(p);
        r := SendAt(p, t, Message(src, dst, code, data), addr);
    }

    /** The rest of port_send, from its start or from where it waited. */
    method SendAt(p: PortId, t: Task, m: Message, addr: nat) returns (r: Outcome)
      requires Consistent() && p in ports
      requires PlaceOf(ports[p].Now(), t) == Elsewhere || PlaceOf(ports[p].Now(), t) == SendWoken(m)
      modifies ports.Values
      ensures r == Returned(ERR_MEMORY) <==>
              |old(ports[p].Now()).msgs| < MAX_MSGCOUNT && (addr > USER_END || |m.data| > PAGE)
      ensures p in old(Now()).ports
      ensures r != Returned(ERR_MEMORY) ==> Consistent() && Now() == DoAt(old(Now()), p, StartSend(t, m))
    {
      hide PortState.Valid, PortState.Do, Send, DoAt;
      ghost var tb := Now();
      StartsSending(ports[p].Now(), t, m);
      r := ports[p].PortSend(t, m, addr);
      if r == Returned(ERR_MEMORY) {
        return;
      }
      OnlyAt(tb, Now(), p, StartSend(t, m));
    }

    /** port_send goes on in a task that was woken. */
    method SendOn(p: PortId, t: Task, addr: nat) returns (r: Outcome)
      requires Consistent() && p in ports && PlaceOf(ports[p].Now(), t).SendWoken?
      modifies ports.Values
      ensures p in old(Now()).ports && var st := old(ports[p].Now());
        && (r == Returned(ERR_MEMORY) <==>
            |st.msgs| < MAX_MSGCOUNT && (addr > USER_END || |PlaceOf(st, t).m.data| > PAGE))
        && (r != Returned(ERR_MEMORY) ==> Consistent() && Now() == PortTable.Do(old(Now()), SendAgain(p, t)))
    {
      hide PortState.Valid, PortState.Do, Send, Now, Consistent, DoAt, PortTable.Do;
      PortNow(p);
      ghost var tb := Now();
      ResumesThere(tb, p, t);
      Resumes(tb.ports[p], t);
      StartsSending(tb.ports[p], t, ports[p].at[t].m);
      SameStep(tb, p, t, ports[p].at[t].m);
      r := SendAt(p, t, ports[p].at[t].m, addr);
    }

    /** port_recv goes on in a task that was woken. */
    method ReceiveOn(p: PortId, t: Task, size: nat) returns (r: Outcome, buffer: seq<int>, from: int, code: int)
      requires Consistent() && p in ports && PlaceOf(ports[p].Now(), t) == RecvWoken
      modifies ports.Values
      ensures Consistent() && Now() == PortTable.Do(old(Now()), ReceiveAgain(p, t))
      ensures Taken(old(ports[p].Now()), size, r, buffer, from, code)
    {
      hide PortState.Valid, PortState.Do, Receive, Now, Consistent, DoAt, PortTable.Do;
      PortNow(p);
      ghost var tb := Now();
      ResumesThere(tb, p, t);
      Resumes(tb.ports[p], t);
      StartsReceiving(tb.ports[p], t);
      SameTake(tb, p, t);
      r, buffer, from, code := TakeAt(p, t, size);
    }

    /** port_recv on a port, slaved or not. */
    method PortRecv(dst: PortId, t: Task, addr: nat, kernel: bool, size: nat)
      returns (r: Outcome, buffer: seq<int>, from: int, code: int)
      requires Consistent() && PortTable.Enabled(Now(), ReceiveAt(dst, t))
      modifies ports.Values
      ensures Consistent()
      ensures dst !in ports ==> r == Returned(ERR_RECVPORT) && Now() == old(Now())
      ensures dst in ports && !kernel && addr > USER_END ==> r == Returned(ERR_MEMORY) && Now() == old(Now())
      ensures dst in ports && (kernel || addr <= USER_END) ==>
        && Now() == PortTable.Do(old(Now()), ReceiveAt(dst, t))
        && Taken(old(ports[dst].Now()), size, r, buffer, from, code)
    {
      hide PortState.Valid, PortState.Do, Receive, Now, Consistent, PortTable.Enabled, DoAt, PortTable.Do;
      ghost var tb := Now();
      SameIds();
      ReceiveIs(tb, dst, t);
      buffer, from, code := [], 0, 0;
      if dst !in ports {
        return Returned(ERR_RECVPORT), buffer, from, code;
      }
      if !kernel && addr > USER_END {
        return Returned(ERR_MEMORY), buffer, from, code;
      }
      FreeThere(tb, ReceiveAt(dst, t), dst, t);
      PortNow(dst);
      r, buffer, from, code := TakeAt(dst, t, size);
    }

    /** The rest of port_recv, from its start or from where it waited. */
    method TakeAt(p: PortId, t: Task, size: nat) returns (r: Outcome, buffer: seq<int>, from: int, code: int)
      requires Consistent() && p in ports
      requires PlaceOf(ports[p].Now(), t) == Elsewhere || PlaceOf(ports[p].Now(), t) == RecvWoken
      modifies ports.Values
      ensures p in old(Now()).ports && Consistent() && Now() == DoAt(old(Now()), p, StartReceive(t))
      ensures Taken(old(ports[p].Now()), size, r, buffer, from, code)
    {
      hide PortState.Valid, PortState.Do, Receive, DoAt;
      ghost var tb := Now();
      StartsReceiving(ports[p].Now(), t);
      r, buffer, from, code := ports[p].PortRecv(t, size);
      OnlyAt(tb, Now(), p, StartReceive(t));
    }
  }

  lemma ResumesThere(tb: Table, p: PortId, t: Task)
    requires p in tb.ports
    ensures PortTable.Do(tb, SendAgain(p, t)) == DoAt(tb, p, ResumeSend(t))
    ensures PortTable.Do(tb, ReceiveAgain(p, t)) == DoAt(tb, p, ResumeReceive(t))
  {
  }

  lemma SameStep(tb: Table, p: PortId, t: Task, m: Message)
    requires p in tb.ports && PlaceOf(tb.ports[p], t) == SendWoken(m)
    ensures DoAt(tb, p, ResumeSend(t)) == DoAt(tb, p, StartSend(t, m))
  {
  }

  lemma SameTake(tb: Table, p: PortId, t: Task)
    requires p in tb.ports
    ensures DoAt(tb, p, ResumeReceive(t)) == DoAt(tb, p, StartReceive(t))
  {
  }

  lemma Resumes(st: PortState.State, t: Task)
    ensures PlaceOf(st, t).SendWoken? ==> PortState.Do(st, ResumeSend(t)) == Send(st, t, PlaceOf(st, t).m)
    ensures PortState.Do(st, ResumeReceive(t)) == Receive(st, t) && Receive(st, t).nowait == st.nowait
  {
  }

  /** What happened at one port happened to the table. */
  lemma OnlyAt(tb: Table, after: Table, p: PortId, step: PortState.Step)
    requires p in tb.ports && after.slaved == tb.slaved && after.ports.Keys == tb.ports.Keys
    requires after.ports[p] == PortState.Do(tb.ports[p], step)
    requires forall q | q in tb.ports && q != p :: after.ports[q] == tb.ports[q]
    ensures after == DoAt(tb, p, step)
  {
    hide PortState.Do;
    assert after.ports == tb.ports[p := after.ports[p]];
  }

  lemma SendIs(tb: Table, src: PortId, dst: PortId, t: Task, code: int, data: seq<int>)
    ensures var step, target := SendTo(src, dst, t, code, data), Resolve(tb, src, dst);
      if target.At? then
        target.port in tb.ports
        && PortTable.Do(tb, step) == DoAt(tb, target.port, StartSend(t, Message(src, dst, code, data)))
      else PortTable.Do(tb, step) == tb
  {
  }

  lemma NoTarget(tb: Table, src: PortId, dst: PortId)
    ensures src !in tb.ports ==> Resolve(tb, src, dst) == NoSource
    ensures src in tb.ports && dst !in tb.ports ==> Resolve(tb, src, dst) == NoDestination
    ensures
      && src in tb.ports && dst in tb.ports && dst in tb.slaved
      && (tb.slaved[dst] !in tb.ports || tb.slaved[dst] in tb.slaved) ==>
        Resolve(tb, src, dst) == NoMaster
  {
  }

  lemma ReceiveIs(tb: Table, dst: PortId, t: Task)
    ensures PortTable.Do(tb, ReceiveAt(dst, t)) == if dst in tb.ports then DoAt(tb, dst, StartReceive(t)) else tb
  {
  }

  lemma FreeThere(tb: Table, step: PortTable.Step, p: PortId, t: Task)
    requires PortTable.Enabled(tb, step) && p in tb.ports
    requires (step.SendTo? || step.ReceiveAt?) && step.t == t
    ensures PlaceOf(tb.ports[p], t) == Elsewhere
  {
  }

  lemma StartsSending(st: PortState.State, t: Task, m: Message)
    ensures PortState.Do(st, StartSend(t, m)) == Send(st, t, m)
  {
  }

  lemma StartsReceiving(st: PortState.State, t: Task)
    ensures PortState.Do(st, StartReceive(t)) == Receive(st, t) && Receive(st, t).nowait == st.nowait
  {
  }
}
