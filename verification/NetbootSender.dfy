/**
 The main loop of openblt/util/netboot.c, run against the answers its waits get: a packet, or none within a second.
 */
module NetbootSender {
  import opened NetbootState

  datatype Answer = Silence | Heard(reply: Packet)

  lemma {:induction false} RunLast(file: seq<Byte>, st: State, steps: seq<Step>, step: Step)
    requires Allowed(file, st, steps) && Shaped(file, Run(file, st, steps)) && Enabled(Run(file, st, steps), step)
    ensures Allowed(file, st, steps + [step])
    ensures Run(file, st, steps + [step]) == Do(file, Run(file, st, steps), step)
    decreases |steps|
  {
    hide Do, Enabled, Shaped;
    if steps == [] {
      assert [step][1..] == [];
      RunNone(file, Do(file, st, step));
    } else {
      RunLast(file, Do(file, st, steps[0]), steps[1..], step);
      assert (steps + [step])[1..] == steps[1..] + [step];
    }
  }

  function Sent(out: seq<Packet>): set<Packet> { set p | p in out }

  lemma SentOne(out: seq<Packet>, p: Packet)
    ensures Sent(out + [p]) == Sent(out) + {p}
  {
  }

  /** The state after these steps: only the sender and what it has sent have changed. */
  ghost predicate Reached(file: seq<Byte>, st: State, steps: seq<Step>, out: seq<Packet>, t: State) {
    && Allowed(file, st, steps) && t == Run(file, st, steps) && Shaped(file, t)
    && t == st.(phase := t.phase, i := t.i, pos := t.pos, buf := t.buf, toTarget := st.toTarget + Sent(out))
  }

  lemma ReachedOne(file: seq<Byte>, st: State, steps: seq<Step>, out: seq<Packet>, t: State, step: Step)
    requires Reached(file, st, steps, out, t) && Enabled(t, step) && !step.Deliver?
    ensures step == Transmit ==>
              Reached(file, st, steps + [step], out + [Packet(LOAD, Number(t.i), t.buf)], Do(file, t, step))
    ensures step == Read && t.pos == |file| ==>
              Reached(file, st, steps + [step], out + [Packet(EXEC, 0, [])], Do(file, t, step))
    ensures step != Transmit && !(step == Read && t.pos == |file|) ==>
              Reached(file, st, steps + [step], out, Do(file, t, step))
  {
    hide Run, Allowed, Sent, Number;
    RunLast(file, st, steps, step);
    SentOne(out, Packet(LOAD, Number(t.i), t.buf));
    SentOne(out, Packet(EXEC, 0, []));
  }

  /**
   Whatever the answers, the loop takes steps of the protocol: what it sends and where it stands is what these steps
   send and where they lead.  It ends with EXEC, or is still waiting when the answers run out.
   */
  method Send(file: seq<Byte>, junk: seq<Byte>, answers: seq<Answer>, ghost st: State)
    returns (out: seq<Packet>, done: bool, ghost steps: seq<Step>)
    requires |junk| == BLOCK && Shaped(file, st)
    requires st.phase == Reading && st.i == 0 && st.pos == 0 && st.buf == junk
    requires forall a | a in answers && a.Heard? :: a.reply in st.toSender
    ensures Allowed(file, st, steps) && Reached(file, st, steps, out, Run(file, st, steps))
    ensures Run(file, st, steps).phase == if done then Done else Waiting
    ensures done ==> out != [] && out[|out| - 1] == Packet(EXEC, 0, [])
    ensures done <==> exists p :: p in out && p.cmd == EXEC
  {
    hide Number, Do, Run, Allowed, Sent;
    var buf, pos, i, k := junk, 0, 0, 0;
    out, done, steps := [], false, [];
    ghost var t := st;
    RunNone(file, st);
    SentNone(st.toTarget);
    while pos < |file|
      invariant 0 <= pos <= |file| && 0 <= k <= |answers| && |buf| == BLOCK
      invariant Reached(file, st, steps, out, t) && t.phase == Reading && t.i == i && t.pos == pos && t.buf == buf
      invariant forall p | p in out :: p.cmd == LOAD
      decreases |answers| - k
    {
      t, steps := ReadStep(file, st, steps, out, t);
      buf, pos := ReadInto(buf, file, pos), pos + Min(BLOCK, |file| - pos);
      var nb := Packet(LOAD, Number(i), buf);
      t, steps := TransmitStep(file, st, steps, out, t);
      out := out + [nb];
      while k < |answers| && !(answers[k].Heard? && answers[k].reply.cmd == ACK && answers[k].reply.blk == nb.blk)
        invariant 0 <= k <= |answers|
        invariant Reached(file, st, steps, out, t) && t.phase == Waiting && t.i == i && t.pos == pos && t.buf == buf
        invariant forall p | p in out :: p.cmd == LOAD
      {
        t, steps := AnswerStep(file, st, steps, out, t, answers[k]);
        k := k + 1;
        t, steps := TransmitStep(file, st, steps, out, t);
        out := out + [nb];
      }
      if k == |answers| {
        return;
      }
      t, steps := AnswerStep(file, st, steps, out, t, answers[k]);
      k := k + 1;
      i := i + 1;
    }
    t, steps := ReadStep(file, st, steps, out, t);
    out := out + [Packet(EXEC, 0, [])];
    done := true;
  }

  lemma SentNone(s: set<Packet>)
    ensures s + Sent([]) == s
  {
  }

  lemma ReadStep(file: seq<Byte>, st: State, steps: seq<Step>, out: seq<Packet>, t: State)
    returns (u: State, more: seq<Step>)
    requires Reached(file, st, steps, out, t) && t.phase == Reading
    ensures if t.pos == |file| then Reached(file, st, more, out + [Packet(EXEC, 0, [])], u) && u.phase == Done
            else Reached(file, st, more, out, u) && u.phase == Sending && u.i == t.i
                 && u.pos == t.pos + Min(BLOCK, |file| - t.pos) && u.buf == ReadInto(t.buf, file, t.pos)
  {
    hide Run, Allowed, Sent, ReadInto;
    u, more := Do(file, t, Read), steps + [Read];
    ReachedOne(file, st, steps, out, t, Read);
  }

  lemma TransmitStep(file: seq<Byte>, st: State, steps: seq<Step>, out: seq<Packet>, t: State)
    returns (u: State, more: seq<Step>)
    requires Reached(file, st, steps, out, t) && t.phase == Sending
    ensures Reached(file, st, more, out + [Packet(LOAD, Number(t.i), t.buf)], u)
    ensures u.phase == Waiting && u.i == t.i && u.pos == t.pos && u.buf == t.buf
  {
    hide Run, Allowed, Sent, Number;
    u, more := Do(file, t, Transmit), steps + [Transmit];
    ReachedOne(file, st, steps, out, t, Transmit);
  }

  lemma AnswerStep(file: seq<Byte>, st: State, steps: seq<Step>, out: seq<Packet>, t: State, answer: Answer)
    returns (u: State, more: seq<Step>)
    requires Reached(file, st, steps, out, t) && t.phase == Waiting
    requires answer.Heard? ==> answer.reply in t.toSender
    ensures Reached(file, st, more, out, u) && u.pos == t.pos && u.buf == t.buf
    ensures if answer.Heard? && answer.reply.cmd == ACK && answer.reply.blk == Number(t.i)
            then u.phase == Reading && u.i == t.i + 1 else u.phase == Sending && u.i == t.i
  {
    hide Run, Allowed, Sent, Number;
    var step := if answer.Heard? then Hear(answer.reply) else Timeout;
    u, more := Do(file, t, step), steps + [step];
    ReachedOne(file, st, steps, out, t, step);
  }
}
