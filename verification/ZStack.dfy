/**
 Routine calls of hiptop/zmachine/ZMachine.java: frames, the evaluation stack they share, and the
 variables an instruction may load and store (section 6 of the Z-Machine Standards Document, 1.0).
 */
module ZStack {

  datatype Option<T> = None | Some(value: T)

  const LOCALS := 17

  datatype Frame = Frame(pc: int, sp: int, bp: int, locals: seq<int>, res: int)

  /** The last frame is the one that runs. */
  datatype State = State(frames: seq<Frame>, stack: seq<int>, mem: seq<int>)

  /** What a story file fixes: its version's rules, how addresses are packed, and where globals are. */
  datatype Story = Story(v5: bool, pack: int, globals: int)

  function Top(st: State): Frame
    requires st.frames != []
  {
    st.frames[|st.frames| - 1]
  }

  function WithTop(st: State, f: Frame): State
    requires st.frames != []
  {
    st.(frames := st.frames[|st.frames| - 1 := f])
  }

  function Word(v: int): int { v % 0x1_0000 }

  function U8(st: State, a: int): Option<int> {
    if 0 <= a < |st.mem| then Some(st.mem[a]) else None
  }

  function U16(st: State, a: int): Option<int> {
    if 0 <= a && a + 1 < |st.mem| then Some(st.mem[a] * 256 + st.mem[a + 1]) else None
  }

  /** The value of a variable: 0 pops the stack, 1 to 15 are locals, others globals.  None when the machine dies. */
  function Load(story: Story, st: State, id: int): Option<(State, int)>
    requires st.frames != []
  {
    var f := Top(st);
    if id == 0 then
      if f.sp - 1 < f.bp || !(0 <= f.sp - 1 < |st.stack|) then None
      else Some((WithTop(st, f.(sp := f.sp - 1)), st.stack[f.sp - 1]))
    else if 1 <= id <= 15 then (if id < |f.locals| then Some((st, f.locals[id])) else None)
    else match U16(st, story.globals + id * 2) case Some(v) => Some((st, v)) case None => None
  }

  function Store(story: Story, st: State, id: int, v: int): Option<State>
    requires st.frames != []
  {
    var f := Top(st);
    if id == 0 then
      if 0 <= f.sp < |st.stack| then Some(WithTop(st.(stack := st.stack[f.sp := Word(v)]), f.(sp := f.sp + 1)))
        else None
    else if 1 <= id <= 15 then
      if id < |f.locals| then Some(WithTop(st, f.(locals := f.locals[id := Word(v)]))) else None
    else
      var a := story.globals + id * 2;
      if 0 <= id <= 255 && 0 <= a && a + 1 < |st.mem|
      then Some(st.(mem := st.mem[a := Word(v) / 256][a + 1 := Word(v) % 256])) else None
  }

  function Arg(i: int, a1: int, a2: int, a3: int): int { if i == 1 then a1 else if i == 2 then a2 else a3 }

  /** The callee's locals: arguments first, then defaults, zero in version 5. */
  function CalleeLocal(story: Story, st: State, pc: int, l: int, argc: int, a1: int, a2: int, a3: int, i: int): int {
    var given := if argc > l + 1 then l + 1 else argc;
    if 1 <= i <= 3 && i < given then Arg(i, a1, a2, a3)
    else if 1 <= i <= l && !story.v5 then (match U16(st, pc + 2 * (i - 1)) case Some(v) => v case None => 0)
    else 0
  }

  function CalleeLocals(story: Story, st: State, pc: int, l: int, argc: int, a1: int, a2: int,
                        a3: int): (locals: seq<int>)
    ensures |locals| == LOCALS
    ensures forall i :: 0 <= i < LOCALS ==> locals[i] == CalleeLocal(story, st, pc, l, argc, a1, a2, a3, i)
  {
    seq(LOCALS, i => CalleeLocal(story, st, pc, l, argc, a1, a2, a3, i))
  }

  /** Calls a routine; the result will go to variable res, or nowhere when res is -1.  Calling 0 just stores 0. */
  function Call(story: Story, st: State, argc: int, target: int, a1: int, a2: int, a3: int, res: int): Option<State>
    requires st.frames != []
  {
    if argc < 1 then None
    else if target * story.pack == 0 then (if res != -1 then Store(story, st, res, 0) else Some(st))
    else
      match U8(st, target * story.pack)
      case None => None
      case Some(l) =>
        var pc := target * story.pack + 1;
        if l > 15 || (!story.v5 && l > 0 && (pc < 0 || pc + 2 * l > |st.mem|)) then None
        else
          var locals := CalleeLocals(story, st, pc, l, argc, a1, a2, a3);
          var start := if story.v5 then pc else pc + l * 2;
          Some(st.(frames := st.frames + [Frame(start, Top(st).sp, Top(st).sp, locals, res)]))
  }

  function PopFrame(st: State): State
    requires |st.frames| >= 2
  {
    st.(frames := st.frames[..|st.frames| - 1])
  }

  function Return(story: Story, st: State, v: int): Option<State>
    requires st.frames != []
  {
    if |st.frames| < 2 then None
    else if Top(st).res != -1 then Store(story, PopFrame(st), Top(st).res, v)
    else Some(PopFrame(st))
  }

  datatype Step =
    | DoLoad(id: int)
    | DoStore(id: int, v: int)
    | DoJump(pc: int)
    | DoPoke(a: int, v: int)
    | DoCall(argc: int, target: int, a1: int, a2: int, a3: int, res: int)
    | DoReturn(v: int)

  function Do(story: Story, st: State, step: Step): Option<State>
    requires st.frames != []
  {
    match step
    case DoLoad(id) => (match Load(story, st, id) case Some(r) => Some(r.0) case None => None)
    case DoStore(id, v) => Store(story, st, id, v)
    case DoJump(pc) => Some(WithTop(st, Top(st).(pc := pc)))
    case DoPoke(a, v) => if 0 <= a < |st.mem| then Some(st.(mem := st.mem[a := v % 256])) else None
    case DoCall(argc, target, a1, a2, a3, res) => Call(story, st, argc, target, a1, a2, a3, res)
    case DoReturn(v) => Return(story, st, v)
  }

  /** Frames lie one above the other on the stack: each starts where its caller ends. */
  ghost predicate Stacked(st: State) {
    && st.frames != []
    && (forall i :: 0 <= i < |st.frames| ==>
        0 <= st.frames[i].bp <= st.frames[i].sp <= |st.stack| && |st.frames[i].locals| == LOCALS)
    && (forall i :: 1 <= i < |st.frames| ==> st.frames[i].bp == st.frames[i - 1].sp)
  }

  lemma {:induction false} BasesRise(st: State, i: nat, j: nat)
    requires Stacked(st) && i < j < |st.frames|
    ensures st.frames[i].sp <= st.frames[j].bp
  {
    if i < j - 1 {
      BasesRise(st, i, j - 1);
    }
  }

  lemma StepStacked(story: Story, st: State, step: Step)
    requires Stacked(st) && Do(story, st, step).Some?
    ensures Stacked(Do(story, st, step).value) && |Do(story, st, step).value.stack| == |st.stack|
  {
    hide CalleeLocals, CalleeLocal, Arg, Word, U8, U16;
    match step {
      case DoReturn(v) => ReturnStacked(story, st, v);
      case DoCall(argc, target, a1, a2, a3, res) => CallStacked(story, st, argc, target, a1, a2, a3, res);
      case DoStore(id, v) => StoreStacked(story, st, id, v);
      case _ =>
    }
  }

  lemma StoreStacked(story: Story, st: State, id: int, v: int)
    requires Stacked(st) && Store(story, st, id, v).Some?
    ensures Stacked(Store(story, st, id, v).value) && |Store(story, st, id, v).value.stack| == |st.stack|
  {
    hide Word;
  }

  lemma ReturnStacked(story: Story, st: State, v: int)
    requires Stacked(st) && Return(story, st, v).Some?
    ensures Stacked(Return(story, st, v).value) && |Return(story, st, v).value.stack| == |st.stack|
  {
    hide Store, Word;
    assert Stacked(PopFrame(st));
    if Top(st).res != -1 {
      StoreStacked(story, PopFrame(st), Top(st).res, v);
    }
  }

  lemma CallStacked(story: Story, st: State, argc: int, target: int, a1: int, a2: int, a3: int, res: int)
    requires Stacked(st) && Call(story, st, argc, target, a1, a2, a3, res).Some?
    ensures var st1 := Call(story, st, argc, target, a1, a2, a3, res).value; Stacked(st1) && |st1.stack| == |st.stack|
  {
    hide Store, CalleeLocals, CalleeLocal, U8, U16;
    if target * story.pack == 0 && res != -1 {
      StoreStacked(story, st, res, 0);
    }
  }

  /** The first d frames and what lies on the stack below the next one. */
  ghost predicate Untouched(st0: State, st: State, d: nat) {
    && 1 <= d < |st.frames| && d <= |st0.frames| && st.frames[..d] == st0.frames[..d] && |st.stack| == |st0.stack|
    && forall i :: 0 <= i < st0.frames[d - 1].sp && i < |st.stack| ==> st.stack[i] == st0.stack[i]
  }

  /** A step that leaves more than d frames leaves the first d alone, and the stack below the next. */
  lemma StepUntouched(story: Story, st0: State, st: State, step: Step, d: nat)
    requires Stacked(st) && Untouched(st0, st, d) && Do(story, st, step).Some? && |Do(story, st, step).value.frames| > d
    ensures Untouched(st0, Do(story, st, step).value, d)
  {
    hide CalleeLocals, CalleeLocal, Arg, Word, U8, U16;
    BasesRise(st, d - 1, |st.frames| - 1);
    match step {
      case DoReturn(v) =>
        BasesRise(st, d - 1, |st.frames| - 2);
        ReturnUntouched(story, st0, st, v, d);
      case DoStore(id, v) => StoreUntouched(story, st0, st, id, v, d);
      case DoCall(argc, target, a1, a2, a3, res) => CallUntouched(story, st0, st, argc, target, a1, a2, a3, res, d);
      case _ =>
    }
  }

  lemma StoreUntouched(story: Story, st0: State, st: State, id: int, v: int, d: nat)
    requires Untouched(st0, st, d) && st0.frames[d - 1].sp <= Top(st).sp && Store(story, st, id, v).Some?
    ensures Untouched(st0, Store(story, st, id, v).value, d)
  {
    hide Word;
  }

  lemma ReturnUntouched(story: Story, st0: State, st: State, v: int, d: nat)
    requires Stacked(st) && Untouched(st0, st, d) && |st.frames| > d + 1 && Return(story, st, v).Some?
    requires st.frames[d - 1].sp <= st.frames[|st.frames| - 2].bp
    ensures Untouched(st0, Return(story, st, v).value, d)
  {
    hide Store, Word;
    assert Untouched(st0, PopFrame(st), d);
    if Top(st).res != -1 {
      StoreUntouched(story, st0, PopFrame(st), Top(st).res, v, d);
    }
  }

  lemma CallUntouched(story: Story, st0: State, st: State, argc: int, target: int, a1: int, a2: int, a3: int, res: int,
                      d: nat)
    requires Stacked(st) && Untouched(st0, st, d) && Call(story, st, argc, target, a1, a2, a3, res).Some?
    requires st0.frames[d - 1].sp <= Top(st).sp
    ensures Untouched(st0, Call(story, st, argc, target, a1, a2, a3, res).value, d)
  {
    hide Store, CalleeLocals, CalleeLocal, U8, U16, Stacked;
    if target * story.pack == 0 {
      if res != -1 {
        StoreUntouched(story, st0, st, res, 0, d);
      }
    }
  }

  /**
   The locals of the routine at an address when argc - 1 arguments were passed: local k is the k-th argument if there is
   one, and the others are the words of the routine's header, or 0 in version 5.
   */
  ghost predicate Received(story: Story, mem: seq<int>, at: int, argc: int, a1: int, a2: int, a3: int,
                           locals: seq<int>)
    requires 0 <= at < |mem|
  {
    var l := mem[at];
    && l <= 15 && |locals| == LOCALS
    && (1 < argc && 1 <= l ==> locals[1] == a1)
    && (2 < argc && 2 <= l ==> locals[2] == a2)
    && (3 < argc && 3 <= l ==> locals[3] == a3)
    && (story.v5 ==> forall k :: 1 <= k <= l && (k > 3 || k >= argc) ==> locals[k] == 0)
    && (!story.v5 ==> forall k :: 1 <= k <= l && (k > 3 || k >= argc) ==>
          at + 2 * k < |mem| && locals[k] == mem[at + 2 * k - 1] * 256 + mem[at + 2 * k])
  }

  /** What the callee of a call finds: its code after the header, an empty stack above the caller's, and its locals. */
  lemma CalleeFinds(story: Story, st: State, argc: int, target: int, a1: int, a2: int, a3: int, res: int)
    requires st.frames != [] && Call(story, st, argc, target, a1, a2, a3, res).Some? && target * story.pack != 0
    ensures argc >= 1 && 0 <= target * story.pack < |st.mem| && st.mem[target * story.pack] <= 15
    ensures var st1, at := Call(story, st, argc, target, a1, a2, a3, res).value, target * story.pack;
            var l, f := st.mem[at], Top(st1);
            && st1 == st.(frames := st.frames + [f]) && f.sp == f.bp == Top(st).sp && f.res == res
            && f.pc == at + 1 + (if story.v5 then 0 else 2 * l)
            && Received(story, st.mem, at, argc, a1, a2, a3, f.locals)
  {
    hide Store;
  }

  /** A variable holds the word last stored in it; on the stack that word is the one to be popped. */
  lemma LoadAfterStore(story: Story, st: State, id: int, v: int)
    requires Stacked(st) && Store(story, st, id, v).Some?
    ensures var st1 := Store(story, st, id, v).value;
            && st1.frames != [] && Load(story, st1, id).Some? && Load(story, st1, id).value.1 == Word(v)
            && (id != 0 ==> Load(story, st1, id).value.0 == st1)
            && (id == 0 ==> Load(story, st1, id).value.0.frames == st.frames)
  {
    hide Stacked;
    StackedTop(st);
    if id > 15 {
      assert Word(v) / 256 * 256 + Word(v) % 256 == Word(v);
    }
  }

  lemma StackedTop(st: State)
    requires Stacked(st)
    ensures st.frames != [] && 0 <= Top(st).bp <= Top(st).sp
  {
  }

  /** Storing to a variable leaves the others alone. */
  lemma LoadOther(story: Story, st: State, id: int, v: int, other: int)
    requires st.frames != [] && Store(story, st, id, v).Some? && other != id && other != 0
    ensures var st1 := Store(story, st, id, v).value;
            && st1.frames != [] && (Load(story, st1, other).Some? <==> Load(story, st, other).Some?)
            && (Load(story, st, other).Some? ==> Load(story, st1, other).value.1 == Load(story, st, other).value.1)
  {
    hide Word;
  }

  /** The states a program goes through. */
  ghost predicate Run(story: Story, states: seq<State>, steps: seq<Step>) {
    && |states| == |steps| + 1 && Stacked(states[0])
    && forall i :: 0 <= i < |steps| ==> states[i].frames != [] && Do(story, states[i], steps[i]) == Some(states[i + 1])
  }

  lemma {:induction false} RunStacked(story: Story, states: seq<State>, steps: seq<Step>, i: nat)
    requires Run(story, states, steps) && i <= |steps|
    ensures Stacked(states[i]) && |states[i].stack| == |states[0].stack|
  {
    hide Stacked, Do;
    if i > 0 {
      RunStacked(story, states, steps, i - 1);
      StepStacked(story, states[i - 1], steps[i - 1]);
    }
  }

  /** As long as a call made by frame d - 1 has not returned, that frame and all below it stay as they were. */
  lemma {:induction false} CallerUntouched(story: Story, states: seq<State>, steps: seq<Step>, i: nat)
    requires Run(story, states, steps) && 1 <= i <= |steps| && steps[0].DoCall?
    requires forall j :: 1 <= j <= i ==> |states[j].frames| > |states[0].frames|
    ensures Untouched(states[0], states[i], |states[0].frames|)
  {
    hide Stacked, Do;
    var d := |states[0].frames|;
    if i == 1 {
      Called(story, states[0], states[1], steps[0]);
    } else {
      CallerUntouched(story, states, steps, i - 1);
      RunStacked(story, states, steps, i - 1);
      assert Do(story, states[i - 1], steps[i - 1]) == Some(states[i]);
      StepUntouched(story, states[0], states[i - 1], steps[i - 1], d);
    }
  }

  lemma Called(story: Story, st: State, st1: State, step: Step)
    requires Stacked(st) && step.DoCall? && Do(story, st, step) == Some(st1) && |st1.frames| > |st.frames|
    ensures Untouched(st, st1, |st.frames|) && Top(st1).res == step.res
    ensures |st1.frames| == |st.frames| + 1 && st1.stack == st.stack && Top(st1).bp == Top(st).sp
  {
    hide CalleeLocals, CalleeLocal, U8, U16, Word;
  }

  /** The frame a call made remembers where its result goes. */
  lemma {:induction false} ResKept(story: Story, states: seq<State>, steps: seq<Step>, i: nat)
    requires Run(story, states, steps) && 1 <= i <= |steps| && steps[0].DoCall?
    requires forall j :: 1 <= j <= i ==> |states[j].frames| > |states[0].frames|
    ensures states[i].frames[|states[0].frames|].res == steps[0].res
  {
    hide Stacked, Do;
    var d := |states[0].frames|;
    if i == 1 {
      Called(story, states[0], states[1], steps[0]);
    } else {
      ResKept(story, states, steps, i - 1);
      assert Do(story, states[i - 1], steps[i - 1]) == Some(states[i]);
      StepRes(story, states[i - 1], steps[i - 1], d);
    }
  }

  lemma StepRes(story: Story, st: State, step: Step, d: nat)
    requires d < |st.frames| && Do(story, st, step).Some? && d < |Do(story, st, step).value.frames|
    ensures Do(story, st, step).value.frames[d].res == st.frames[d].res
  {
    hide CalleeLocals, CalleeLocal, Arg, Word, U8, U16;
  }

  /**
   A routine that has returned leaves its caller as it was: all frames up to the caller, and all that
   lies on the stack below the caller's top, with nothing changed but the variable the result went to.
   */
  lemma CallReturns(story: Story, states: seq<State>, steps: seq<Step>)
    requires Run(story, states, steps) && |steps| >= 2 && steps[0].DoCall? && steps[|steps| - 1].DoReturn?
    requires forall j :: 1 <= j < |steps| ==> |states[j].frames| > |states[0].frames|
    requires |states[|steps|].frames| == |states[0].frames|
    ensures var n := |steps|;
            var last := states[n - 1];
            && |last.frames| == |states[0].frames| + 1 && Top(last).bp == Top(states[0]).sp
            && PopFrame(last).frames == states[0].frames
            && Some(states[n]) == if steps[0].res != -1 then Store(story, PopFrame(last), steps[0].res, steps[n - 1].v)
              else Some(PopFrame(last))
    ensures |states[|steps|].stack| == |states[0].stack|
    ensures forall i :: 0 <= i < Top(states[0]).sp && i < |states[0].stack| ==>
      states[|steps|].stack[i] == states[0].stack[i]
    ensures Top(states[|steps|]).pc == Top(states[0]).pc && Top(states[|steps|]).bp == Top(states[0]).bp
  {
    var n := |steps|;
    var d := |states[0].frames|;
    CallerUntouched(story, states, steps, n - 1);
    RunStacked(story, states, steps, n - 1);
    RunStacked(story, states, steps, n);
    ResKept(story, states, steps, n - 1);
    Returned(story, states[0], states[n - 1], states[n], steps[n - 1]);
  }

  lemma Returned(story: Story, st0: State, last: State, st: State, step: Step)
    requires Stacked(last) && st0.frames != [] && Untouched(st0, last, |st0.frames|) && step.DoReturn?
    requires Do(story, last, step) == Some(st) && |st.frames| == |st0.frames|
    ensures |last.frames| == |st0.frames| + 1 && PopFrame(last).frames == st0.frames && Top(last).bp == Top(st0).sp
    ensures Some(st) ==
      if Top(last).res != -1 then Store(story, PopFrame(last), Top(last).res, step.v) else Some(PopFrame(last))
    ensures |st.stack| == |st0.stack| && forall i :: 0 <= i < Top(st0).sp && i < |st0.stack| ==>
      st.stack[i] == st0.stack[i]
    ensures Top(st).pc == Top(st0).pc && Top(st).bp == Top(st0).bp
  {
    hide Word;
    assert last.frames[..|st0.frames|] == st0.frames[..|st0.frames|] == st0.frames;
  }
}
