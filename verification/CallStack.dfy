/** Routine calls and returns on the flat stack, and the list of frames that stack stands for. */
module CallStack {
  import opened Bytes
  import opened ZState

  /** Cells of a frame header: store byte, return address (two words), saved base pointer, number of locals. */
  const HEADER_CELLS: nat := 5

  /** The byte address a packed address of version 3 stands for. */
  function PackedAddress(w: word): nat {
    2 * w as int
  }

  function Long(lo: word, hi: word): nat {
    lo as int + 0x1_0000 * hi as int
  }

  function FrameHeader(store: byte, ret: nat, bp: nat, numLocals: byte): (h: seq<word>)
    requires ret < 0x1_0000_0000 && bp <= STACK_CELLS
    ensures |h| == HEADER_CELLS
  {
    [store, ret % 0x1_0000, ret / 0x1_0000, bp, numLocals]
  }

  /** The initial value of local `i` (from 0): the caller's argument if it passed one, otherwise
      the two bytes the routine starts with, copied as they are. */
  function InitialLocal(s: State, routine: int, args: int, i: nat): word
    requires InStory(s, routine + 1 + 2 * i, 2) && args <= 7
  {
    if i < args then Swap(s.operands[i + 1]) else Swap(StoryWord(s, routine + 1 + 2 * i))
  }

  /** Enter the routine whose packed address is operand 0. The call stack is not checked for
      room, so running past its end has no meaning. */
  function Enter(s: State, store: byte): (r: State)
    requires s.status.Running? && s.count != 0 && 0 <= s.pc < 0x1_0000_0000
  {
    var routine := PackedAddress(s.operands[0]);
    if !InStory(s, routine, 1) then Halt(s, Undefined)
    else if s.story[routine] > 15 then Halt(s, Died)
    else
      var n := s.story[routine];
      if s.sp + HEADER_CELLS + n > STACK_CELLS || !InStory(s, routine + 1, 2 * n) then Halt(s, Undefined)
      else
        var args := Min(s.count - 1, n);
        var locals := seq(n, i requires 0 <= i < n => InitialLocal(s, routine, args, i));
        var base := s.sp + HEADER_CELLS;
        s.(stack := Overwrite(s.stack, s.sp, FrameHeader(store, s.pc, s.bp, n) + locals),
           sp := base + n, bp := base, pc := routine + 1 + 2 * n)
  }

  /** The `call` instruction: calling nothing, or address 0, stores 0. */
  function OpCall(s: State): State {
    var (s1, store) := FetchByte(s);
    if !s1.status.Running? then s1
    else if s1.count == 0 || s1.operands[0] == 0 then WriteVar(s1, store, 0)
    else Enter(s1, store)
  }

  /** Drop the running routine's frame: back to the caller's stack, base pointer and next instruction. */
  function Leave(s: State): State
    requires 5 <= s.bp && s.stack[s.bp - 2] <= STACK_CELLS
  {
    s.(sp := s.bp - HEADER_CELLS, bp := s.stack[s.bp - 2],
       pc := Long(s.stack[s.bp - 4], s.stack[s.bp - 3]))
  }

  /** Return `val` from the running routine into the variable the call named. */
  function DoReturn(s: State, val: word): State {
    if !s.status.Running? then s
    else if s.bp == 0 then Halt(s, Died)
    else if s.bp < HEADER_CELLS || s.stack[s.bp - 2] > STACK_CELLS then Halt(s, Undefined)
    else WriteVar(Leave(s), Lo(s.stack[s.bp - 5]), val)
  }

  // ----- the chain of frames

  /** Following saved base pointers from `bp` reaches 0, every header on the way is intact, and
      every frame starts above the locals of the one before it. */
  ghost predicate Chain(stack: seq<word>, sp: nat, bp: nat)
    requires |stack| == STACK_CELLS
    decreases bp
  {
    && sp <= STACK_CELLS
    && (bp != 0 ==>
          && HEADER_CELLS <= bp <= sp
          && stack[bp - 1] <= 15
          && bp + stack[bp - 1] <= sp
          && stack[bp - 2] < bp
          && stack[bp - 5] < 0x100
          && Chain(stack, bp - HEADER_CELLS, stack[bp - 2]))
  }

  ghost predicate WellFormed(s: State) {
    s.status.Running? ==> Chain(s.stack, s.sp, s.bp)
  }

  /** The chain seen from `bp` depends only on the cells below `bp`. */
  lemma {:induction false} ChainBelow(a: seq<word>, b: seq<word>, bp: nat, sp: nat, sp': nat)
    requires |a| == |b| == STACK_CELLS && Chain(a, sp, bp)
    requires bp <= STACK_CELLS && a[..bp] == b[..bp]
    requires sp' <= STACK_CELLS && (bp != 0 ==> bp + a[bp - 1] <= sp')
    ensures Chain(b, sp', bp)
    decreases bp
  {
    if bp != 0 {
      HeaderEqual(a, b, bp, bp);
      var below := bp - HEADER_CELLS;
      var prev := a[bp - 2];
      assert a[..prev] == a[..bp][..prev] == b[..bp][..prev] == b[..prev];
      ChainBelow(a, b, prev, below, below);
    }
  }

  /** A routine's frame as a value: where its result goes, where the caller resumes, and its
      locals and evaluation stack as stored (big-endian) words. */
  datatype Frame = Frame(store: byte, ret: nat, locals: seq<word>, eval: seq<word>)

  /** The newest frame. The code outside any routine is a frame without locals. */
  ghost function Top(stack: seq<word>, sp: nat, bp: nat): Frame
    requires |stack| == STACK_CELLS && Chain(stack, sp, bp)
  {
    if bp == 0 then Frame(0, 0, [], stack[..sp])
    else
      var n := stack[bp - 1];
      Frame(stack[bp - 5], Long(stack[bp - 4], stack[bp - 3]), stack[bp..bp + n], stack[bp + n..sp])
  }

  /** The list of frames the flat stack stands for, oldest first. */
  ghost function Frames(stack: seq<word>, sp: nat, bp: nat): (fs: seq<Frame>)
    requires |stack| == STACK_CELLS && Chain(stack, sp, bp)
    ensures |fs| >= 1 && (|fs| == 1 <==> bp == 0)
    decreases bp
  {
    (if bp == 0 then [] else Frames(stack, bp - HEADER_CELLS, stack[bp - 2])) + [Top(stack, sp, bp)]
  }

  ghost function FramesOf(s: State): (fs: seq<Frame>)
    requires s.status.Running? && WellFormed(s)
    ensures |fs| >= 1
  {
    Frames(s.stack, s.sp, s.bp)
  }

  /** Equal cells below `sp` stand for equal frames. */
  lemma {:induction false} FramesBelow(a: seq<word>, b: seq<word>, sp: nat, bp: nat)
    requires |a| == |b| == STACK_CELLS && Chain(a, sp, bp) && a[..sp] == b[..sp]
    ensures Chain(b, sp, bp) && Frames(a, sp, bp) == Frames(b, sp, bp)
    decreases bp
  {
    ChainSame(a, b, sp, bp);
    TopBelow(a, b, sp, bp);
    if bp != 0 {
      var below, prev := bp - HEADER_CELLS, a[bp - 2];
      SliceEqual(a, b, sp, 0, below);
      FramesBelow(a, b, below, prev);
      assert b[bp - 2] == prev by {
        HeaderEqual(a, b, sp, bp);
      }
      FramesStep(a, sp, bp, below, prev);
      FramesStep(b, sp, bp, below, prev);
    }
  }

  lemma ChainSame(a: seq<word>, b: seq<word>, sp: nat, bp: nat)
    requires |a| == |b| == STACK_CELLS && Chain(a, sp, bp) && a[..sp] == b[..sp]
    ensures Chain(b, sp, bp)
  {
    if bp != 0 {
      SliceEqual(a, b, sp, 0, bp);
      ChainBelow(a, b, bp, sp, sp);
    }
  }

  lemma TopBelow(a: seq<word>, b: seq<word>, sp: nat, bp: nat)
    requires |a| == |b| == STACK_CELLS && Chain(a, sp, bp) && Chain(b, sp, bp) && a[..sp] == b[..sp]
    ensures Top(a, sp, bp) == Top(b, sp, bp)
  {
    if bp != 0 {
      HeaderEqual(a, b, sp, bp);
      var n := a[bp - 1];
      SliceEqual(a, b, sp, bp, bp + n);
      SliceEqual(a, b, sp, bp + n, sp);
    }
  }

  lemma SliceEqual<T>(a: seq<T>, b: seq<T>, sp: nat, i: nat, j: nat)
    requires i <= j <= sp <= |a| && sp <= |b| && a[..sp] == b[..sp]
    ensures a[i..j] == b[i..j]
  {
    forall k | i <= k < j ensures a[k] == b[k] {
      assert a[..sp][k] == b[..sp][k];
    }
  }

  lemma HeaderEqual(a: seq<word>, b: seq<word>, sp: nat, bp: nat)
    requires |a| == |b| == STACK_CELLS && HEADER_CELLS <= bp <= sp <= STACK_CELLS && a[..sp] == b[..sp]
    ensures forall k :: bp - HEADER_CELLS <= k < bp ==> a[k] == b[k]
  {
    forall k | bp - HEADER_CELLS <= k < bp ensures a[k] == b[k] {
      assert a[..sp][k] == b[..sp][k];
    }
  }

  // ----- what the primitives do to the list of frames

  /** What `SameFrame` means for the list: only the newest frame's locals and evaluation stack may differ. */
  ghost predicate OnlyTopDiffers(fs: seq<Frame>, gs: seq<Frame>)
    requires |fs| >= 1
  {
    && |gs| == |fs|
    && gs[..|fs| - 1] == fs[..|fs| - 1]
    && gs[|fs| - 1].store == fs[|fs| - 1].store
    && gs[|fs| - 1].ret == fs[|fs| - 1].ret
    && |gs[|fs| - 1].locals| == |fs[|fs| - 1].locals|
  }

  lemma WellFormedInFrame(s: State)
    requires s.status.Running? && WellFormed(s)
    ensures InFrame(s)
  {
  }

  lemma {:induction false} SameFrameKeepsOlderFrames(s: State, t: State)
    requires s.status.Running? && WellFormed(s) && SameFrame(s, t) && t.status.Running?
    ensures WellFormed(t)
    ensures OnlyTopDiffers(FramesOf(s), FramesOf(t))
  {
    var bp := s.bp;
    if bp != 0 {
      HeaderEqual(s.stack, t.stack, bp, bp);
      ChainBelow(s.stack, t.stack, bp, s.sp, t.sp);
      SliceEqual(s.stack, t.stack, bp, 0, bp - HEADER_CELLS);
      FramesBelow(s.stack, t.stack, bp - HEADER_CELLS, s.stack[bp - 2]);
    }
  }

  /** A frame with variable `v` assigned. */
  ghost function Assigned(f: Frame, v: byte, val: word): Frame
    requires 1 <= v <= 15 ==> v <= |f.locals|
  {
    if v == 0 then f.(eval := f.eval + [Swap(val)])
    else if v <= 15 then f.(locals := f.locals[v - 1 := Swap(val)])
    else f
  }

  ghost function TopOf(s: State): Frame
    requires s.status.Running? && WellFormed(s)
  {
    Top(s.stack, s.sp, s.bp)
  }

  lemma PushExtendsEval(s: State, val: word)
    requires s.status.Running? && WellFormed(s) && s.sp < STACK_CELLS
    requires var t := WriteVar(s, 0, val); WellFormed(t) && t.status.Running?
    ensures TopOf(WriteVar(s, 0, val)) == Assigned(TopOf(s), 0, val)
  {
    var t := WriteVar(s, 0, val);
    assert t.stack == s.stack[s.sp := Swap(val)];
    var n := NumLocals(s);
    assert t.stack[s.bp..s.bp + n] == s.stack[s.bp..s.bp + n];
    assert t.stack[s.bp + n..t.sp] == s.stack[s.bp + n..s.sp] + [Swap(val)];
  }

  lemma LocalWriteSetsLocal(s: State, v: byte, val: word)
    requires s.status.Running? && WellFormed(s) && 1 <= v <= 15
    requires var t := WriteVar(s, v, val); WellFormed(t) && t.status.Running?
    ensures v <= |TopOf(s).locals| && TopOf(WriteVar(s, v, val)) == Assigned(TopOf(s), v, val)
  {
    var t := WriteVar(s, v, val);
    var n := NumLocals(s);
    assert t.stack == s.stack[s.bp + v - 1 := Swap(val)];
    assert t.stack[s.bp..s.bp + n] == s.stack[s.bp..s.bp + n][v - 1 := Swap(val)];
    assert t.stack[s.bp + n..t.sp] == s.stack[s.bp + n..s.sp];
  }

  /** The story with variable `v` assigned: a global has its value there, big-endian. */
  ghost function StoryWith(s: State, v: byte, val: word): seq<byte>
    requires v >= 16 ==> InStory(s, GlobalAddress(s, v), 2)
  {
    if v < 16 then s.story
    else
      var a := GlobalAddress(s, v);
      s.story[a := Hi(val)][a + 1 := Lo(val)]
  }

  /** Writing a variable of a running routine succeeds exactly when the variable exists; it assigns
      exactly the variable named, in that routine's own frame or in the story, and nothing else. */
  lemma {:induction false} WriteVarAssignsTop(s: State, v: byte, val: word)
    requires s.status.Running? && WellFormed(s)
    ensures var t := WriteVar(s, v, val);
      && (t.status.Running? <==>
            (v == 0 ==> s.sp < STACK_CELLS)
            && (1 <= v <= 15 ==> v <= |TopOf(s).locals|)
            && (16 <= v ==> InStory(s, GlobalAddress(s, v), 2)))
      && (t.status.Running? ==>
            && WellFormed(t) && FramesOf(t) == FramesOf(s)[..|FramesOf(s)| - 1] + [Assigned(TopOf(s), v, val)]
            && t == s.(sp := t.sp, stack := t.stack, story := StoryWith(s, v, val)))
  {
    var t := WriteVar(s, v, val);
    if !t.status.Running? {
      return;
    }
    SameFrameKeepsOlderFrames(s, t);
    if v == 0 {
      PushExtendsEval(s, val);
    } else if v <= 15 {
      LocalWriteSetsLocal(s, v, val);
    } else {
      assert t.stack == s.stack && t.sp == s.sp && t.bp == s.bp;
    }
  }

  /** A variable that can be read: 0 only while the newest frame has evaluation-stack words left,
      so a pop never reaches into locals or an older frame. */
  ghost predicate Readable(s: State, v: byte)
    requires s.status.Running? && WellFormed(s)
  {
    && (v == 0 ==> TopOf(s).eval != [])
    && (1 <= v <= 15 ==> v <= |TopOf(s).locals|)
    && (16 <= v ==> InStory(s, GlobalAddress(s, v), 2))
  }

  lemma ReadVarSucceeds(s: State, v: byte)
    requires s.status.Running? && WellFormed(s)
    ensures ReadVar(s, v).0.status.Running? <==> Readable(s, v)
  {
  }

  lemma PopTakesLast(s: State)
    requires s.status.Running? && WellFormed(s) && Readable(s, 0)
    ensures var (t, val) := ReadVar(s, 0);
      var eval := TopOf(s).eval;
      && t.status.Running? && WellFormed(t)
      && val == Swap(eval[|eval| - 1])
      && TopOf(t) == TopOf(s).(eval := eval[..|eval| - 1])
  {
    var n := NumLocals(s);
    var t := ReadVar(s, 0).0;
    assert t == s.(sp := s.sp - 1);
    SliceOfSlice(s.stack, s.bp + n, s.sp, 0, t.sp - s.bp - n);
  }

  lemma LocalReadGivesLocal(s: State, v: byte)
    requires s.status.Running? && WellFormed(s) && 1 <= v <= 15 && Readable(s, v)
    ensures ReadVar(s, v) == (s, Swap(TopOf(s).locals[v - 1]))
  {
  }

  /** Reading a variable gives its value and, but for a pop, changes nothing. */
  lemma ReadVarOfTop(s: State, v: byte)
    requires s.status.Running? && WellFormed(s) && Readable(s, v)
    ensures var (t, val) := ReadVar(s, v);
      && t.status.Running? && WellFormed(t)
      && FramesOf(t)[..|FramesOf(t)| - 1] == FramesOf(s)[..|FramesOf(s)| - 1]
      && (if v == 0 then
            var eval := TopOf(s).eval;
            val == Swap(eval[|eval| - 1]) && TopOf(t) == TopOf(s).(eval := eval[..|eval| - 1])
          else
            t == s && val == if v <= 15 then Swap(TopOf(s).locals[v - 1]) else StoryWord(s, GlobalAddress(s, v)))
  {
    ReadVarSucceeds(s, v);
    SameFrameKeepsOlderFrames(s, ReadVar(s, v).0);
    if v == 0 {
      PopTakesLast(s);
    } else if v <= 15 {
      LocalReadGivesLocal(s, v);
    }
  }

  /** Entering a routine adds one frame and changes no other; the frame resumes after the call's
      store byte and starts with an empty evaluation stack. */
  lemma {:induction false} EnterPushesFrame(s: State, store: byte)
    requires s.status.Running? && WellFormed(s) && s.count != 0 && 0 <= s.pc < 0x1_0000_0000
    requires Enter(s, store).status.Running?
    ensures var t := Enter(s, store);
      && WellFormed(t)
      && t.bp == s.sp + HEADER_CELLS && t.stack[..s.sp] == s.stack[..s.sp]
      && FramesOf(t) == FramesOf(s) + [Frame(store, s.pc, t.stack[t.bp..t.sp], [])]
  {
    EnteredHeader(s, store);
    HeaderAddsFrame(s, Enter(s, store), store);
  }

  /** A header written just above the used stack, with locals after it, is one more frame. */
  lemma HeaderAddsFrame(s: State, t: State, store: byte)
    requires s.status.Running? && WellFormed(s) && t.status.Running? && 0 <= s.pc
    requires t.bp == s.sp + HEADER_CELLS && t.stack[..s.sp] == s.stack[..s.sp]
    requires t.stack[t.bp - 5] == store && Long(t.stack[t.bp - 4], t.stack[t.bp - 3]) == s.pc && t.stack[t.bp - 2] == s.bp
    requires t.stack[t.bp - 1] <= 15 && t.sp == t.bp + t.stack[t.bp - 1]
    ensures WellFormed(t)
    ensures FramesOf(t) == FramesOf(s) + [Frame(store, s.pc, t.stack[t.bp..t.sp], [])]
  {
    FramesBelow(s.stack, t.stack, s.sp, s.bp);
    FrameOnTop(t.stack, t.sp, t.bp, s.sp, s.bp);
  }

  lemma FrameOnTop(stack: seq<word>, sp: nat, bp: nat, below: nat, prev: nat)
    requires |stack| == STACK_CELLS && bp == below + HEADER_CELLS && bp <= sp <= STACK_CELLS
    requires Chain(stack, below, prev) && prev == stack[bp - 2] && prev <= below
    requires stack[bp - 5] < 0x100 && stack[bp - 1] <= 15 && sp == bp + stack[bp - 1]
    ensures Chain(stack, sp, bp)
    ensures Frames(stack, sp, bp)
         == Frames(stack, below, prev) + [Frame(stack[bp - 5], Long(stack[bp - 4], stack[bp - 3]), stack[bp..sp], [])]
  {
    TopOfFresh(stack, sp, bp);
    FramesStep(stack, sp, bp, below, prev);
  }

  lemma FramesStep(stack: seq<word>, sp: nat, bp: nat, below: nat, prev: nat)
    requires |stack| == STACK_CELLS && Chain(stack, sp, bp) && bp != 0 && below == bp - HEADER_CELLS && prev == stack[bp - 2]
    ensures Frames(stack, sp, bp) == Frames(stack, below, prev) + [Top(stack, sp, bp)]
  {
  }

  lemma TopOfFresh(stack: seq<word>, sp: nat, bp: nat)
    requires |stack| == STACK_CELLS && Chain(stack, sp, bp) && bp != 0 && sp == bp + stack[bp - 1]
    ensures Top(stack, sp, bp) == Frame(stack[bp - 5], Long(stack[bp - 4], stack[bp - 3]), stack[bp..sp], [])
  {
  }

  lemma EnteredHeader(s: State, store: byte)
    requires s.status.Running? && s.count != 0 && 0 <= s.pc < 0x1_0000_0000
    requires Enter(s, store).status.Running?
    ensures var t := Enter(s, store);
      && t.bp == s.sp + HEADER_CELLS && t.stack[..s.sp] == s.stack[..s.sp]
      && t.stack[t.bp - 5] == store && Long(t.stack[t.bp - 4], t.stack[t.bp - 3]) == s.pc && t.stack[t.bp - 2] == s.bp
      && t.stack[t.bp - 1] <= 15 && t.sp == t.bp + t.stack[t.bp - 1]
  {
    var t := Enter(s, store);
    var n := s.story[PackedAddress(s.operands[0])];
    var h := FrameHeader(store, s.pc, s.bp, n);
    assert t.stack[s.sp..t.bp] == h;
    assert forall k :: 0 <= k < HEADER_CELLS ==> t.stack[s.sp..t.bp][k] == t.stack[s.sp + k];
    assert h[0] == store && h[1] == s.pc % 0x1_0000 && h[2] == s.pc / 0x1_0000 && h[3] == s.bp && h[4] == n;
  }

  /** A routine's locals on entry: the caller's arguments, then the values the routine starts with. */
  lemma EnteredLocals(s: State, store: byte)
    requires s.status.Running? && s.count != 0 && 0 <= s.pc < 0x1_0000_0000
    requires Enter(s, store).status.Running?
    ensures var t := Enter(s, store);
      var r := PackedAddress(s.operands[0]);
      && InStory(s, r, 1) && InStory(s, r + 1, 2 * s.story[r] as int)
      && t.bp + s.story[r] == t.sp
      && forall i :: 0 <= i < s.story[r] ==>
           Swap(t.stack[t.bp..t.sp][i]) == if i + 1 < s.count then s.operands[i + 1] else StoryWord(s, r + 1 + 2 * i)
  {
    var t := Enter(s, store);
    var r := PackedAddress(s.operands[0]);
    var n := s.story[r];
    var args := Min(s.count - 1, n);
    var base := s.sp + HEADER_CELLS;
    var locals := seq(n, i requires 0 <= i < n => InitialLocal(s, r, args, i));
    var below := s.stack[..s.sp] + FrameHeader(store, s.pc, s.bp, n);
    assert t.stack == below + locals + s.stack[base + n..];
    assert |below| == base == t.bp && t.sp == base + n;
    assert t.stack[t.bp..t.sp] == locals;
    forall i | 0 <= i < n
      ensures Swap(locals[i]) == if i + 1 < s.count then s.operands[i + 1] else StoryWord(s, r + 1 + 2 * i)
    {
      LocalOnEntry(s, r, args, i);
    }
  }

  lemma LocalOnEntry(s: State, routine: int, args: int, i: nat)
    requires InStory(s, routine + 1 + 2 * i, 2) && args <= 7
    ensures Swap(InitialLocal(s, routine, args, i)) ==
            if i < args then s.operands[i + 1] else StoryWord(s, routine + 1 + 2 * i)
  {
    SwapTwice(if i < args then s.operands[i + 1] else StoryWord(s, routine + 1 + 2 * i));
  }

  /** Leaving a routine drops exactly the newest frame and resumes where its call said. */
  lemma LeavePopsFrame(s: State)
    requires s.status.Running? && WellFormed(s) && s.bp != 0
    ensures WellFormed(Leave(s)) && Leave(s).pc == TopOf(s).ret
    ensures FramesOf(s) == FramesOf(Leave(s)) + [TopOf(s)]
  {
  }

  /** Returning drops exactly the newest frame, resumes where its call said, and assigns the result
      to the variable its call named, in the caller's frame or in the story, and nothing else. */
  lemma {:induction false} ReturnPopsFrame(s: State, val: word)
    requires s.status.Running? && WellFormed(s) && DoReturn(s, val).status.Running?
    ensures s.bp != 0 && WellFormed(DoReturn(s, val)) && WellFormed(Leave(s))
    ensures FramesOf(s) == FramesOf(Leave(s)) + [TopOf(s)]
    ensures var t, caller, store := DoReturn(s, val), Leave(s), TopOf(s).store;
      && (1 <= store <= 15 ==> store <= |TopOf(caller).locals|)
      && FramesOf(t) == FramesOf(caller)[..|FramesOf(caller)| - 1] + [Assigned(TopOf(caller), store, val)]
      && t.pc == TopOf(s).ret
      && (16 <= store ==> InStory(s, GlobalAddress(s, store), 2))
      && t == s.(pc := t.pc, sp := t.sp, bp := caller.bp, stack := t.stack, story := StoryWith(s, store, val))
  {
    ReturnIsLeaveThenWrite(s, val);
    LeavePopsFrame(s);
    WriteVarAssignsTop(Leave(s), TopOf(s).store, val);
  }

  lemma ReturnIsLeaveThenWrite(s: State, val: word)
    requires s.status.Running? && WellFormed(s) && DoReturn(s, val).status.Running?
    ensures s.bp != 0 && DoReturn(s, val) == WriteVar(Leave(s), TopOf(s).store, val)
  {
    var v := Lo(s.stack[s.bp - 5]);
    assert v == TopOf(s).store;
    assert DoReturn(s, val) == WriteVar(Leave(s), v, val);
  }

  /** What was written to a variable is read back: a push by the pop that undoes it. */
  lemma WriteThenRead(s: State, v: byte, val: word)
    requires s.status.Running? && WellFormed(s) && WriteVar(s, v, val).status.Running?
    ensures var t := WriteVar(s, v, val);
      ReadVar(t, v) == (if v == 0 then t.(sp := s.sp) else t, val)
  {
    if v >= 16 {
      GlobalReadsBack(s, v, val, GlobalAddress(s, v));
    } else {
      SwapTwice(val);
      if v != 0 {
        assert s.bp != 0 && VarAddress(s, v, true) == (s, Cell(s.bp + (v - 1)));
      }
    }
  }

  lemma GlobalReadsBack(s: State, v: byte, val: word, a: int)
    requires s.status.Running? && v >= 16 && a == GlobalAddress(s, v) && WriteVar(s, v, val).status.Running?
    ensures ReadVar(WriteVar(s, v, val), v) == (WriteVar(s, v, val), val)
  {
    WordOfBytes(val);
    var t := WriteVar(s, v, val);
    assert InStory(s, a, 2) && t == s.(story := s.story[a := Hi(val)][a + 1 := Lo(val)]);
    assert StoryWord(t, a) == Word(Hi(val), Lo(val));
  }
}
