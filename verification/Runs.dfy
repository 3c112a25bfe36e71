/** Whole runs of the machine: what calls, returns and everything between them do to the stack. */
module Runs {
  import opened Bytes
  import opened ZState
  import opened CallStack
  import opened Instruction

  // ----- the frames determine the stack

  /** The abstraction loses nothing: stacks that stand for the same frames have the same stack and
      base pointers and agree on every used cell, headers included. */
  lemma {:induction false} FramesInjective(a: seq<word>, sp: nat, bp: nat, b: seq<word>, sp': nat, bp': nat)
    requires |a| == |b| == STACK_CELLS && Chain(a, sp, bp) && Chain(b, sp', bp')
    requires Frames(a, sp, bp) == Frames(b, sp', bp')
    ensures sp == sp' && bp == bp' && a[..sp] == b[..sp]
    decreases bp
  {
    FramesSplit(a, sp, bp);
    FramesSplit(b, sp', bp');
    if bp == 0 {
      assert a[..sp] == b[..sp'];
      assert |a[..sp]| == sp && |b[..sp']| == sp';
    } else {
      var below, below' := bp - HEADER_CELLS, bp' - HEADER_CELLS;
      FramesInjective(a, below, a[bp - 2], b, below', b[bp' - 2]);
      TopInjective(a, sp, bp, b, sp');
    }
  }

  lemma FramesSplit(stack: seq<word>, sp: nat, bp: nat)
    requires |stack| == STACK_CELLS && Chain(stack, sp, bp)
    ensures var fs := Frames(stack, sp, bp);
      && fs[|fs| - 1] == Top(stack, sp, bp)
      && (bp != 0 ==> fs[..|fs| - 1] == Frames(stack, bp - HEADER_CELLS, stack[bp - 2]))
      && (bp == 0 ==> |fs| == 1 && Top(stack, sp, bp).eval == stack[..sp])
  {
  }

  lemma TopInjective(a: seq<word>, sp: nat, bp: nat, b: seq<word>, sp': nat)
    requires |a| == |b| == STACK_CELLS && Chain(a, sp, bp) && Chain(b, sp', bp) && bp != 0
    requires Top(a, sp, bp) == Top(b, sp', bp) && a[bp - 2] == b[bp - 2]
    requires a[..bp - HEADER_CELLS] == b[..bp - HEADER_CELLS]
    ensures sp == sp' && a[..sp] == b[..sp]
  {
    var n := a[bp - 1];
    var f := Top(a, sp, bp);
    assert |f.locals| == n == b[bp - 1] && |f.eval| == sp - bp - n;
    LongInjective(a[bp - 4], a[bp - 3], b[bp - 4], b[bp - 3]);
    forall i | 0 <= i < sp ensures a[i] == b[i] {
      if i < bp - HEADER_CELLS {
        assert a[..bp - HEADER_CELLS][i] == b[..bp - HEADER_CELLS][i];
      } else if bp + n <= i {
        assert a[i] == f.eval[i - bp - n] == b[i];
      } else if bp <= i {
        assert a[i] == f.locals[i - bp] == b[i];
      }
    }
  }

  lemma LongInjective(lo: word, hi: word, lo': word, hi': word)
    requires Long(lo, hi) == Long(lo', hi')
    ensures lo == lo' && hi == hi'
  {
  }

  // ----- what one instruction does to the frames

  /** A routine was entered: one more frame, and of the others only the newest may have changed. */
  ghost predicate Entered(fs: seq<Frame>, gs: seq<Frame>)
    requires |fs| >= 1
  {
    |gs| == |fs| + 1 && OnlyTopDiffers(fs, gs[..|fs|])
  }

  ghost predicate AssignedBy(g: Frame, f: Frame, v: byte, val: word) {
    (1 <= v <= 15 ==> v <= |f.locals|) && g == Assigned(f, v, val)
  }

  /** A routine returned: its frame is gone, its caller resumes where the call said, and in the
      caller's frame exactly the variable the call named is assigned. */
  ghost predicate Returned(fs: seq<Frame>, gs: seq<Frame>, pc: int)
    requires |fs| >= 1
  {
    var m := |fs| - 1;
    && m >= 1 && |gs| == m
    && gs[..m - 1] == fs[..m - 1]
    && pc == fs[m].ret
    && SomeAssigned(gs[m - 1], fs[m - 1], fs[m].store)
  }

  ghost predicate SomeAssigned(g: Frame, f: Frame, v: byte) {
    exists val :: AssignedBy(g, f, v, val)
  }

  ghost predicate StepOnFrames(fs: seq<Frame>, gs: seq<Frame>, pc: int)
    requires |fs| >= 1
  {
    OnlyTopDiffers(fs, gs) || Entered(fs, gs) || Returned(fs, gs, pc)
  }

  /** Changing the newest frame first and then doing a step is a step from where one began. */
  lemma TopThenStep(fs: seq<Frame>, cs: seq<Frame>, gs: seq<Frame>, pc: int)
    requires |fs| >= 1 && OnlyTopDiffers(fs, cs) && StepOnFrames(cs, gs, pc)
    ensures StepOnFrames(fs, gs, pc)
  {
    var m := |fs| - 1;
    if Returned(cs, gs, pc) {
      assert cs[m - 1] == cs[..m][m - 1] == fs[..m][m - 1] == fs[m - 1];
      assert gs[..m - 1] == cs[..m][..m - 1] == fs[..m][..m - 1] == fs[..m - 1];
      assert Returned(fs, gs, pc);
    }
  }

  lemma ReturnOnFrames(c: State, val: word)
    requires c.status.Running? && WellFormed(c) && DoReturn(c, val).status.Running?
    ensures WellFormed(DoReturn(c, val))
    ensures Returned(FramesOf(c), FramesOf(DoReturn(c, val)), DoReturn(c, val).pc)
  {
    ReturnPopsFrame(c, val);
    PoppedAndAssigned(FramesOf(Leave(c)), TopOf(c), FramesOf(DoReturn(c, val)), val);
  }

  lemma PoppedAndAssigned(callers: seq<Frame>, top: Frame, gs: seq<Frame>, val: word)
    requires |callers| >= 1 && (1 <= top.store <= 15 ==> top.store <= |callers[|callers| - 1].locals|)
    requires gs == callers[..|callers| - 1] + [Assigned(callers[|callers| - 1], top.store, val)]
    ensures Returned(callers + [top], gs, top.ret)
  {
    var m := |callers|;
    assert AssignedBy(gs[m - 1], callers[m - 1], top.store, val);
    assert gs[..m - 1] == callers[..m - 1] == (callers + [top])[..m - 1];
  }

  lemma CallOnFrames(c: State)
    requires c.status.Running? && WellFormed(c) && OpCall(c).status.Running?
    ensures WellFormed(OpCall(c)) && StepOnFrames(FramesOf(c), FramesOf(OpCall(c)), OpCall(c).pc)
  {
    var (c1, store) := FetchByte(c);
    if c1.count == 0 || c1.operands[0] == 0 {
      SameFrameKeepsOlderFrames(c, OpCall(c));
    } else {
      EnterPushesFrame(c1, store);
      assert FramesOf(OpCall(c))[..|FramesOf(c)|] == FramesOf(c);
    }
  }

  lemma BranchOnFrames(c: State, truth: bool)
    requires c.status.Running? && WellFormed(c) && DoBranch(c, truth).status.Running?
    ensures WellFormed(DoBranch(c, truth))
    ensures StepOnFrames(FramesOf(c), FramesOf(DoBranch(c, truth)), DoBranch(c, truth).pc)
  {
    var (c1, branch, byte2) := FetchBranch(c);
    var offset := BranchOffset(branch, byte2);
    SameFrameKeepsOlderFrames(c, c1);
    if truth == (branch >= 0x80) && 0 <= offset <= 1 {
      ReturnOnFrames(c1, offset);
      TopThenStep(FramesOf(c), FramesOf(c1), FramesOf(DoBranch(c, truth)), DoBranch(c, truth).pc);
    }
  }

  /** Every instruction but `restore` keeps the chain of frames intact and touches the newest frame
      only, enters one routine, or returns from one. */
  lemma InstructionOnFrames(s: State, env: Env)
    requires s.status.Running? && WellFormed(s) && !Restores(s, env) && Step(s, env).status.Running?
    ensures WellFormed(Step(s, env))
    ensures StepOnFrames(FramesOf(s), FramesOf(Step(s, env)), Step(s, env).pc)
  {
    var (s1, op) := Fetched(s);
    var (c, next) := Work(s1, op, env);
    GoOnNeedsRunning(c, next, env);
    SameFrameKeepsOlderFrames(s, c);
    GoOnOnFrames(c, next, env);
    TopThenStep(FramesOf(s), FramesOf(c), FramesOf(Step(s, env)), Step(s, env).pc);
  }

  lemma GoOnOnFrames(c: State, next: Next, env: Env)
    requires c.status.Running? && WellFormed(c) && !next.Restore? && GoOn(c, next, env).status.Running?
    ensures var t := GoOn(c, next, env);
      WellFormed(t) && StepOnFrames(FramesOf(c), FramesOf(t), t.pc)
  {
    match next
    case Continue =>
    case Branch(truth) => BranchOnFrames(c, truth);
    case Return(val) => ReturnOnFrames(c, val);
    case Call => CallOnFrames(c);
    case Save =>
      var (c1, okay) := SaveGame(c, env.save);
      BranchNeedsRunning(c1, okay);
      BranchOnFrames(c1, okay);
  }

  lemma GoOnNeedsRunning(c: State, next: Next, env: Env)
    requires GoOn(c, next, env).status.Running?
    ensures c.status.Running?
  {
    match next
    case Continue =>
    case Branch(truth) => BranchNeedsRunning(c, truth);
    case Return(val) =>
    case Call =>
    case Save => BranchNeedsRunning(SaveGame(c, env.save).0, SaveGame(c, env.save).1);
    case Restore => BranchNeedsRunning(RestoreGame(c), true);
  }

  lemma BranchNeedsRunning(c: State, truth: bool)
    requires DoBranch(c, truth).status.Running?
    ensures c.status.Running?
  {
  }

  /** The next instruction is `restore`. */
  ghost predicate Restores(s: State, env: Env) {
    var (s1, op) := Fetched(s);
    Work(s1, op, env).1.Restore?
  }

  // ----- runs

  /** The state after one instruction for each environment. */
  ghost function Run(s: State, envs: seq<Env>): State {
    if envs == [] then s else Step(Run(s, envs[..|envs| - 1]), envs[|envs| - 1])
  }

  /** How many frames a running machine has; none for any other. */
  ghost function Depth(s: State): nat {
    if s.status.Running? && WellFormed(s) then |FramesOf(s)| else 0
  }

  /** No instruction of the run is `restore`. */
  ghost predicate WithoutRestore(s: State, envs: seq<Env>)
    decreases |envs|
  {
    envs != [] ==>
      WithoutRestore(s, envs[..|envs| - 1]) && !Restores(Run(s, envs[..|envs| - 1]), envs[|envs| - 1])
  }

  /** All along the run the machine has more than `depth` frames. */
  ghost predicate RunsAbove(s: State, envs: seq<Env>, depth: nat)
    decreases |envs|
  {
    Depth(Run(s, envs)) > depth && (envs != [] ==> RunsAbove(s, envs[..|envs| - 1], depth))
  }

  lemma StoppedStaysStopped(s: State, env: Env)
    requires Step(s, env).status.Running?
    ensures s.status.Running?
  {
    var (s1, op) := Fetched(s);
    var (c, next) := Work(s1, op, env);
    GoOnNeedsRunning(c, next, env);
  }

  /** A machine that has stopped stays as it is, ... */
  lemma StepOfStopped(s: State, env: Env)
    requires !s.status.Running?
    ensures Step(s, env) == s
  {
  }

  /** ... however long it would go on. */
  lemma {:induction false} RunOfStopped(s: State, envs: seq<Env>, i: nat)
    requires i <= |envs| && !Run(s, envs[..i]).status.Running?
    ensures Run(s, envs) == Run(s, envs[..i])
    decreases |envs|
  {
    if i == |envs| {
      assert envs[..i] == envs;
    } else {
      var before := envs[..|envs| - 1];
      assert before[..i] == envs[..i];
      RunOfStopped(s, before, i);
      StepOfStopped(Run(s, before), envs[|envs| - 1]);
    }
  }

  /** In every state a run without `restore` reaches, the chain of frames is intact: every header
      is whole, every saved base pointer is smaller than the next, and following them ends at 0. */
  lemma {:induction false} RunsStayWellFormed(s: State, envs: seq<Env>)
    requires WellFormed(s) && WithoutRestore(s, envs)
    ensures WellFormed(Run(s, envs))
    decreases |envs|
  {
    if envs != [] {
      var before, env := Run(s, envs[..|envs| - 1]), envs[|envs| - 1];
      RunsStayWellFormed(s, envs[..|envs| - 1]);
      if Step(before, env).status.Running? {
        StoppedStaysStopped(before, env);
        InstructionOnFrames(before, env);
      }
    }
  }

  /** While a run keeps more than `depth` frames, it never changes the oldest `depth` frames, nor
      the header of the one above them. */
  lemma {:induction false} OlderFramesUntouched(s: State, envs: seq<Env>, depth: nat)
    requires RunsAbove(s, envs, depth) && WithoutRestore(s, envs)
    ensures Depth(s) > depth
    ensures var fs, gs := FramesOf(s), FramesOf(Run(s, envs));
      gs[..depth] == fs[..depth] && gs[depth].store == fs[depth].store && gs[depth].ret == fs[depth].ret
    decreases |envs|
  {
    if envs != [] {
      var before := Run(s, envs[..|envs| - 1]);
      OlderFramesUntouched(s, envs[..|envs| - 1], depth);
      InstructionOnFrames(before, envs[|envs| - 1]);
      StepKeepsOlder(FramesOf(before), FramesOf(Run(s, envs)), Run(s, envs).pc, depth);
    }
  }

  lemma StepKeepsOlder(fs: seq<Frame>, gs: seq<Frame>, pc: int, depth: nat)
    requires |fs| > depth && |gs| > depth && StepOnFrames(fs, gs, pc)
    ensures gs[..depth] == fs[..depth] && gs[depth].store == fs[depth].store && gs[depth].ret == fs[depth].ret
  {
    var m := |fs| - 1;
    if Returned(fs, gs, pc) {
      assert depth <= m - 1;
      assert gs[..depth] == gs[..m - 1][..depth] == fs[..m - 1][..depth] == fs[..depth];
      if depth < m - 1 {
        assert gs[depth] == gs[..m - 1][depth] == fs[..m - 1][depth] == fs[depth];
      }
    } else {
      var hs := if Entered(fs, gs) then gs[..|fs|] else gs;
      assert OnlyTopDiffers(fs, hs);
      assert gs[..depth] == hs[..m][..depth] == fs[..m][..depth] == fs[..depth];
      assert gs[depth] == hs[depth];
      if depth < m {
        assert hs[depth] == hs[..m][depth] == fs[..m][depth] == fs[depth];
      }
    }
  }

  /** The same without frames: no cell below the first header of the frame at `depth` changes. */
  lemma OlderCellsUntouched(s: State, envs: seq<Env>, depth: nat, sp: nat, bp: nat)
    requires RunsAbove(s, envs, depth) && WithoutRestore(s, envs) && Depth(s) > depth >= 1
    requires Chain(s.stack, sp, bp) && Frames(s.stack, sp, bp) == FramesOf(s)[..depth]
    ensures Run(s, envs).stack[..sp] == s.stack[..sp]
  {
    OlderFramesUntouched(s, envs, depth);
    var t := Run(s, envs);
    var (sp', bp') := FrameAt(t.stack, t.sp, t.bp, depth);
    FramesInjective(s.stack, sp, bp, t.stack, sp', bp');
  }

  /** Where the oldest `depth` frames of a stack end. */
  ghost function FrameAt(stack: seq<word>, sp: nat, bp: nat, depth: nat): (r: (nat, nat))
    requires |stack| == STACK_CELLS && Chain(stack, sp, bp) && 1 <= depth <= |Frames(stack, sp, bp)|
    ensures Chain(stack, r.0, r.1) && Frames(stack, r.0, r.1) == Frames(stack, sp, bp)[..depth]
    decreases bp
  {
    FramesSplit(stack, sp, bp);
    var fs := Frames(stack, sp, bp);
    if depth == |fs| then (sp, bp)
    else
      var below, prev := bp - HEADER_CELLS, stack[bp - 2];
      assert fs[..|fs| - 1] == Frames(stack, below, prev) && fs[..|fs| - 1][..depth] == fs[..depth];
      FrameAt(stack, below, prev, depth)
  }

  // ----- the caller's stack afterwards

  /** `t` is `c` with `val` assigned to variable `store`: same next instruction, same base pointer,
      and of the stack only the variable (or one pushed word) differs. */
  ghost predicate Resumed(c: State, t: State, store: byte, val: word) {
    && t.pc == c.pc && t.bp == c.bp
    && t.sp == (if store == 0 then c.sp + 1 else c.sp)
    && (store == 0 ==> c.sp < STACK_CELLS && t.stack[c.sp] == Swap(val))
    && (1 <= store <= 15 ==> store <= NumLocals(c))
    && forall i :: 0 <= i < c.sp ==>
         t.stack[i] == if 1 <= store <= 15 && i == c.bp + store - 1 then Swap(val) else c.stack[i]
  }

  lemma AssignedStack(c: State, t: State, store: byte, val: word)
    requires c.status.Running? && WellFormed(c) && c.sp < STACK_CELLS && t.status.Running? && WellFormed(t)
    requires 1 <= store <= 15 ==> store <= |TopOf(c).locals|
    requires FramesOf(t) == FramesOf(c)[..|FramesOf(c)| - 1] + [Assigned(TopOf(c), store, val)]
    requires t.pc == c.pc
    ensures Resumed(c, t, store, val)
  {
    if store <= 15 {
      AssignedInFrame(c, t, store, val);
    } else {
      FramesSplit(c.stack, c.sp, c.bp);
      assert FramesOf(c) == FramesOf(c)[..|FramesOf(c)| - 1] + [TopOf(c)];
      SameFramesSameCells(t, c);
    }
  }

  lemma AssignedInFrame(c: State, t: State, store: byte, val: word)
    requires c.status.Running? && WellFormed(c) && c.sp < STACK_CELLS && t.status.Running? && WellFormed(t)
    requires store <= 15 && (store != 0 ==> store <= |TopOf(c).locals|)
    requires FramesOf(t) == FramesOf(c)[..|FramesOf(c)| - 1] + [Assigned(TopOf(c), store, val)]
    requires t.pc == c.pc
    ensures Resumed(c, t, store, val)
  {
    WriteVarAssignsTop(c, store, val);
    SameFramesSameCells(t, WriteVar(c, store, val));
  }

  lemma SameFramesSameCells(t: State, w: State)
    requires t.status.Running? && WellFormed(t) && w.status.Running? && WellFormed(w) && FramesOf(t) == FramesOf(w)
    ensures t.sp == w.sp && t.bp == w.bp && forall i :: 0 <= i < w.sp ==> t.stack[i] == w.stack[i]
  {
    FramesInjective(t.stack, t.sp, t.bp, w.stack, w.sp, w.bp);
    forall i | 0 <= i < w.sp ensures t.stack[i] == w.stack[i] {
      assert t.stack[..t.sp][i] == w.stack[..w.sp][i];
    }
  }

  /** A call instruction, once its operands are fetched and unless they name routine 0, enters the routine. */
  lemma CallEnters(s: State, env: Env, s1: State, c: State, store: byte)
    requires Fetched(s) == (s1, 224) && s1.status.Running? && FetchByte(s1) == (c, store)
    requires s1.count != 0 && s1.operands[0] != 0 && Step(s, env).status.Running?
    ensures c.status.Running? && c.count != 0 && 0 <= c.pc < 0x1_0000_0000
    ensures Step(s, env) == Enter(c, store)
    ensures WellFormed(s) ==> WellFormed(c) && OnlyTopDiffers(FramesOf(s), FramesOf(c))
  {
    WorkOfCall(s1, env);
    assert Step(s, env) == OpCall(s1);
    OpCallEnters(s1, c, store);
    if WellFormed(s) {
      SameFrameTwice(s, s1, c);
      SameFrameKeepsOlderFrames(s, c);
    }
  }

  lemma WorkOfCall(s: State, env: Env)
    requires s.status.Running?
    ensures Work(s, 224, env) == (s, Call)
  {
    assert 224 !in ON_NUMBERS && 224 !in ON_OBJECTS && 224 !in ON_TEXT;
    assert Work(s, 224, env) == WorkOnMachine(s, 224, env);
  }

  lemma OpCallEnters(s: State, c: State, store: byte)
    requires s.status.Running? && s.count != 0 && s.operands[0] != 0 && FetchByte(s) == (c, store) && OpCall(s).status.Running?
    ensures c.status.Running? && c.count != 0 && 0 <= c.pc < 0x1_0000_0000 && OpCall(s) == Enter(c, store)
  {
  }

  lemma SameFrameTwice(s: State, t: State, u: State)
    requires s.status.Running? && WellFormed(s) && SameFrame(s, t) && SameFrame(t, u) && u.status.Running?
    ensures SameFrame(s, u)
  {
    WellFormedInFrame(s);
  }

  // ----- returning

  /** Where a branch returns from the routine instead of moving, and with what. */
  ghost function BranchReturn(c: State, truth: bool): (State, Option<word>) {
    var (c1, branch, byte2) := FetchBranch(c);
    var offset := BranchOffset(branch, byte2);
    (c1, if truth == (branch >= 0x80) && 0 <= offset <= 1 then Some(offset) else None)
  }

  /** The state in which an instruction whose work is done returns from the running routine, and the
      value it returns: by a return instruction or by a branch with offset 0 or 1. */
  ghost function Returning(c: State, next: Next, env: Env): (State, Option<word>) {
    match next
    case Return(val) => (c, Some(val))
    case Branch(truth) => BranchReturn(c, truth)
    case Save => var (c1, okay) := SaveGame(c, env.save); BranchReturn(c1, okay)
    case _ => (c, None)
  }

  ghost function ReturnPoint(s: State, env: Env): (State, Option<word>) {
    var (s1, op) := Fetched(s);
    var (c, next) := Work(s1, op, env);
    Returning(c, next, env)
  }

  lemma BranchReturns(c: State, truth: bool)
    requires c.status.Running? && WellFormed(c) && DoBranch(c, truth).status.Running?
    requires WellFormed(DoBranch(c, truth)) && |FramesOf(DoBranch(c, truth))| < |FramesOf(c)|
    ensures var (p, v) := BranchReturn(c, truth);
      && v.Some? && p.status.Running? && WellFormed(p) && DoBranch(c, truth) == DoReturn(p, v.value)
      && OnlyTopDiffers(FramesOf(c), FramesOf(p))
  {
    SameFrameKeepsOlderFrames(c, FetchBranch(c).0);
    if BranchReturn(c, truth).1.None? {
      BranchStays(c, truth);
    }
  }

  lemma BranchStays(c: State, truth: bool)
    requires c.status.Running? && WellFormed(c) && DoBranch(c, truth).status.Running?
    requires BranchReturn(c, truth).1.None?
    ensures WellFormed(DoBranch(c, truth)) && |FramesOf(DoBranch(c, truth))| == |FramesOf(c)|
  {
    var p := FetchBranch(c).0;
    assert DoBranch(c, truth) == p.(pc := DoBranch(c, truth).pc);
    SameFrameKeepsOlderFrames(c, p);
  }

  lemma CallKeepsFrames(c: State)
    requires c.status.Running? && WellFormed(c) && OpCall(c).status.Running?
    ensures WellFormed(OpCall(c)) && |FramesOf(OpCall(c))| >= |FramesOf(c)|
  {
    var (c1, store) := FetchByte(c);
    if c1.count == 0 || c1.operands[0] == 0 {
      SameFrameKeepsOlderFrames(c, OpCall(c));
    } else {
      EnterPushesFrame(c1, store);
    }
  }

  lemma GoOnReturns(c: State, next: Next, env: Env)
    requires c.status.Running? && WellFormed(c) && !next.Restore? && GoOn(c, next, env).status.Running?
    requires WellFormed(GoOn(c, next, env)) && |FramesOf(GoOn(c, next, env))| < |FramesOf(c)|
    ensures var (p, v) := Returning(c, next, env);
      && v.Some? && p.status.Running? && WellFormed(p) && GoOn(c, next, env) == DoReturn(p, v.value)
      && OnlyTopDiffers(FramesOf(c), FramesOf(p))
  {
    match next
    case Continue =>
    case Return(val) =>
    case Branch(truth) => BranchReturns(c, truth);
    case Call => CallKeepsFrames(c);
    case Save =>
      var (c1, okay) := SaveGame(c, env.save);
      BranchNeedsRunning(c1, okay);
      BranchReturns(c1, okay);
  }

  /** An instruction that leaves fewer frames than it found returns from the newest one. */
  lemma FewerFramesReturn(s: State, env: Env, p: State, v: Option<word>)
    requires s.status.Running? && WellFormed(s) && !Restores(s, env) && Step(s, env).status.Running?
    requires WellFormed(Step(s, env)) && |FramesOf(Step(s, env))| < |FramesOf(s)| && ReturnPoint(s, env) == (p, v)
    ensures v.Some? && p.status.Running? && WellFormed(p) && Step(s, env) == DoReturn(p, v.value)
    ensures OnlyTopDiffers(FramesOf(s), FramesOf(p))
  {
    var (s1, op) := Fetched(s);
    var (c, next) := Work(s1, op, env);
    GoOnNeedsRunning(c, next, env);
    SameFrameKeepsOlderFrames(s, c);
    GoOnReturns(c, next, env);
    OnlyTopTwice(FramesOf(s), FramesOf(c), FramesOf(p));
  }

  lemma OnlyTopTwice(fs: seq<Frame>, gs: seq<Frame>, hs: seq<Frame>)
    requires |fs| >= 1 && OnlyTopDiffers(fs, gs) && OnlyTopDiffers(gs, hs)
    ensures OnlyTopDiffers(fs, hs)
  {
  }

  // ----- a call and its return

  /** Whatever a routine does, through any nesting of further calls and returns: when an instruction
      returns from it, in state `p` and with value `val`, its caller goes on exactly where it was, with
      exactly the stack it had, except for the one variable the call names, which has the value;
      everything else is as it was when the routine returned. */
  lemma CallThenReturn(c: State, store: byte, envs: seq<Env>, env: Env, p: State, v: Option<word>)
    requires c.status.Running? && WellFormed(c) && c.count != 0 && 0 <= c.pc < 0x1_0000_0000
    requires Enter(c, store).status.Running?
    requires RunsAbove(Enter(c, store), envs, Depth(c)) && WithoutRestore(Enter(c, store), envs + [env])
    requires Run(Enter(c, store), envs + [env]).status.Running?
    requires Depth(Run(Enter(c, store), envs + [env])) <= Depth(c)
    requires ReturnPoint(Run(Enter(c, store), envs), env) == (p, v)
    ensures var t := Run(Enter(c, store), envs + [env]);
      && WellFormed(t) && v.Some? && Resumed(c, t, store, v.value)
      && (16 <= store ==> InStory(p, GlobalAddress(p, store), 2))
      && t == p.(pc := t.pc, sp := t.sp, bp := t.bp, stack := t.stack, story := StoryWith(p, store, v.value))
  {
    var entered := Enter(c, store);
    assert (envs + [env])[..|envs|] == envs;
    var last := Run(entered, envs);
    var t := Step(last, env);
    assert t == Run(entered, envs + [env]);
    EnterPushesFrame(c, store);
    OlderFramesUntouched(entered, envs, Depth(c));
    assert FramesOf(entered)[..Depth(c)] == FramesOf(c);
    LastReturn(c, store, last, env, p, v, t);
  }

  lemma LastReturn(c: State, store: byte, last: State, env: Env, p: State, v: Option<word>, t: State)
    requires c.status.Running? && WellFormed(c) && c.sp < STACK_CELLS && last.status.Running? && WellFormed(last)
    requires !Restores(last, env) && t == Step(last, env) && t.status.Running? && ReturnPoint(last, env) == (p, v)
    requires |FramesOf(last)| > |FramesOf(c)| && FramesOf(last)[..|FramesOf(c)|] == FramesOf(c)
    requires FramesOf(last)[|FramesOf(c)|].store == store && FramesOf(last)[|FramesOf(c)|].ret == c.pc
    requires Depth(t) <= |FramesOf(c)|
    ensures WellFormed(t) && v.Some? && Resumed(c, t, store, v.value)
    ensures 16 <= store ==> InStory(p, GlobalAddress(p, store), 2)
    ensures t == p.(pc := t.pc, sp := t.sp, bp := t.bp, stack := t.stack, story := StoryWith(p, store, v.value))
  {
    InstructionOnFrames(last, env);
    FewerFramesReturn(last, env, p, v);
    ReturnPopsFrame(p, v.value);
    ReturnedTo(FramesOf(c), FramesOf(last), FramesOf(p), FramesOf(Leave(p)), TopOf(p));
    AssignedStack(c, t, store, v.value);
  }

  /** One frame above the caller's, whatever has become of it: leaving it leaves the caller's frames. */
  lemma ReturnedTo(fs: seq<Frame>, ls: seq<Frame>, ps: seq<Frame>, rest: seq<Frame>, top: Frame)
    requires |fs| >= 1 && |ls| == |fs| + 1 && ls[..|fs|] == fs
    requires OnlyTopDiffers(ls, ps) && ps == rest + [top]
    ensures rest == fs && top.store == ls[|fs|].store && top.ret == ls[|fs|].ret
  {
    assert rest == ps[..|fs|];
  }
}
