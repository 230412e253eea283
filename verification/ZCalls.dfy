/** Load, Store, op_call and Return of hiptop/zmachine/ZMachine.java, in place on the machine's state. */
module ZCalls {
  import opened ZStack

  const STACK_SIZE := 4096

  class Machine {
    var frames: seq<Frame>
    var stack: array<int>
    var mem: array<int>
    const story: Story

    ghost function Now(): State
      reads this, stack, mem
    {
      State(frames, stack[..], mem[..])
    }

    ghost predicate Valid()
      reads this, stack, mem
    {
      stack != mem && Stacked(Now())
    }

    /** The machine before the first instruction of a story: one frame, which is never returned from. */
    constructor (mem: array<int>, story: Story, pc: int)
      ensures Valid() && this.mem == mem && this.story == story && fresh(stack)
      ensures stack.Length == STACK_SIZE && frames == [Frame(pc, 0, 0, seq(LOCALS, _ => 0), 0)]
    {
      this.mem, this.story := mem, story;
      stack := new int[STACK_SIZE](_ => 0);
      frames := [Frame(pc, 0, 0, seq(LOCALS, _ => 0), 0)];
    }

    /** A word of memory; ok is false outside it. */
    method ReadWord(a: int) returns (ok: bool, v: int)
      ensures U16(Now(), a) == if ok then Option.Some(v) else Option.None
    {
      ok := 0 <= a && a + 1 < mem.Length;
      v := if ok then mem[a] * 256 + mem[a + 1] else 0;
    }

    /** Loads a variable; ok is false when the machine dies. */
    method LoadVar(id: int) returns (ok: bool, v: int)
      requires Valid()
      modifies `frames
      ensures ok == Load(story, old(Now()), id).Some?
      ensures ok ==> Valid() && Load(story, old(Now()), id).value == (Now(), v)
      ensures ok && id == 0 ==> 0 <= Top(Now()).sp < stack.Length && v == stack[Top(Now()).sp]
      ensures ok && 1 <= id <= 15 ==> id < LOCALS && v == Top(Now()).locals[id]
      ensures ok && !(0 <= id <= 15) ==>
        var a := story.globals + id * 2;
        0 <= a && a + 1 < mem.Length && v == mem[a] * 256 + mem[a + 1]
    {
      ghost var before := Now();
      var f := frames[|frames| - 1];
      if id == 0 {
        f := f.(sp := f.sp - 1);
        if f.sp < f.bp || !(0 <= f.sp < stack.Length) {
          return false, 0;
        }
        frames := frames[|frames| - 1 := f];
        StepStacked(story, before, DoLoad(id));
        return true, stack[f.sp];
      }
      if 1 <= id <= 15 {
        if id >= |f.locals| {
          return false, 0;
        }
        return true, f.locals[id];
      }
      ok, v := ReadWord(story.globals + id * 2);
    }

    /** Stores to a variable; ok is false when the machine dies. */
    method StoreVar(id: int, v: int) returns (ok: bool)
      requires Valid()
      modifies `frames, stack, mem
      ensures ok == Store(story, old(Now()), id, v).Some?
      ensures ok ==> Valid() && Now() == Store(story, old(Now()), id, v).value
      ensures stack == old(stack) && mem == old(mem)
      ensures ok && id == 0 ==> 0 <= old(Top(Now()).sp) < stack.Length && stack[old(Top(Now()).sp)] == Word(v)
      ensures ok && 1 <= id <= 15 ==> id < LOCALS && Top(Now()).locals[id] == Word(v)
      ensures ok && !(0 <= id <= 15) ==>
        var a := story.globals + id * 2;
        0 <= a && a + 1 < mem.Length && mem[a] == Word(v) / 256 && mem[a + 1] == Word(v) % 256
    {
      ghost var before := Now();
      var f := frames[|frames| - 1];
      if id == 0 {
        if !(0 <= f.sp < stack.Length) {
          return false;
        }
        stack[f.sp] := Word(v);
        frames := frames[|frames| - 1 := f.(sp := f.sp + 1)];
      } else if 1 <= id <= 15 {
        if id >= |f.locals| {
          return false;
        }
        frames := frames[|frames| - 1 := f.(locals := f.locals[id := Word(v)])];
      } else {
        var a := story.globals + id * 2;
        if !(0 <= id <= 255 && 0 <= a && a + 1 < mem.Length) {
          return false;
        }
        mem[a] := Word(v) / 256;
        mem[a + 1] := Word(v) % 256;
      }
      StepStacked(story, before, DoStore(id, v));
      ok := true;
    }

    /** Calls a routine; ok is false when the machine dies. */
    method OpCall(argc: int, target: int, a1: int, a2: int, a3: int, res: int) returns (ok: bool)
      requires Valid() && frames != []
      modifies `frames, stack, mem
      ensures ok == Call(story, old(Now()), argc, target, a1, a2, a3, res).Some?
      ensures ok ==> Valid() && Now() == Call(story, old(Now()), argc, target, a1, a2, a3, res).value
      ensures ok ==> argc >= 1
      ensures ok && target * story.pack == 0 ==>
        Option.Some(Now()) == if res == -1 then Option.Some(old(Now())) else Store(story, old(Now()), res, 0)
      ensures ok && target * story.pack != 0 ==>
        && 0 <= target * story.pack < mem.Length && mem[..] == old(mem[..]) && stack[..] == old(stack[..])
        && |frames| == old(|frames|) + 1 && frames[..old(|frames|)] == old(frames)
      ensures ok && target * story.pack != 0 ==>
        var at := target * story.pack;
        var l, f := mem[at], Top(Now());
        && f.sp == f.bp == Top(old(Now())).sp && f.res == res && f.pc == at + 1 + (if story.v5 then 0 else 2 * l)
        && Received(story, mem[..], at, argc, a1, a2, a3, f.locals)
    {
      hide CalleeLocals, Store, Stacked, Received;
      ghost var before := Now();
      if Call(story, before, argc, target, a1, a2, a3, res).Some? && target * story.pack != 0 {
        CalleeFinds(story, before, argc, target, a1, a2, a3, res);
      }
      if argc < 1 {
        return false;
      }
      var pc := target * story.pack;
      if pc == 0 {
        ok := true;
        if res != -1 {
          ok := StoreVar(res, 0);
        }
        return;
      }
      if !(0 <= pc < mem.Length) {
        return false;
      }
      var l := mem[pc];
      pc := pc + 1;
      if l > 15 || (!story.v5 && l > 0 && pc + 2 * l > mem.Length) {
        return false;
      }
      var start := if story.v5 then pc else pc + l * 2;
      var locals := MakeLocals(pc, l, argc, a1, a2, a3);
      frames := frames + [Frame(start, frames[|frames| - 1].sp, frames[|frames| - 1].sp, locals, res)];
      StepStacked(story, before, DoCall(argc, target, a1, a2, a3, res));
      ok := true;
    }

    /** Zeroed or default locals, then the arguments. */
    method MakeLocals(pc0: int, l: int, argc0: int, a1: int, a2: int, a3: int) returns (locals: seq<int>)
      requires l <= 15 && pc0 >= 0 && (story.v5 || l <= 0 || pc0 + 2 * l <= mem.Length)
      ensures locals == CalleeLocals(story, Now(), pc0, l, argc0, a1, a2, a3)
    {
      locals := seq(LOCALS, i => 0);
      var pc, argc, i := pc0, argc0, 1;
      while i < l + 1
        invariant 1 <= i && (i <= l + 1 || i == 1) && |locals| == LOCALS
        invariant pc == (if story.v5 then pc0 else pc0 + 2 * (i - 1))
        invariant forall k :: 0 <= k < LOCALS ==>
          locals[k] == if 1 <= k < i && !story.v5 then mem[pc0 + 2 * (k - 1)] * 256 + mem[pc0 + 2 * (k - 1) + 1] else 0
      {
        if story.v5 {
          locals := locals[i := 0];
        } else {
          locals := locals[i := mem[pc] * 256 + mem[pc + 1]];
          pc := pc + 2;
        }
        i := i + 1;
      }
      if argc > l + 1 {
        argc := l + 1;
      }
      if argc > 1 {
        locals := locals[1 := a1];
        if argc > 2 {
          locals := locals[2 := a2];
          if argc > 3 {
            locals := locals[3 := a3];
          }
        }
      }
    }

    /** Returns from a routine; ok is false when the machine dies. */
    method ReturnFrom(value: int) returns (ok: bool)
      requires Valid()
      modifies `frames, stack, mem
      ensures ok == Return(story, old(Now()), value).Some?
      ensures ok ==> Valid() && Now() == Return(story, old(Now()), value).value
    {
      ghost var before := Now();
      if |frames| < 2 {
        return false;
      }
      var f := frames[|frames| - 1];
      frames := frames[..|frames| - 1];
      ok := true;
      if f.res != -1 {
        ok := StoreVar(f.res, value);
      }
    }
  }
}
