/** The interpreter as it runs: one machine whose registers, stack and story are updated in place.
    Every method is proved to do to the machine exactly what the functions of the model do to its
    state. An access the program leaves without meaning stops the machine as `Undefined`. */
module Interpreter {
  import opened Bytes
  import opened ZState
  import opened CallStack
  import opened Instruction
  import Objects
  import Properties
  import Runs
  import Text
  import Decoder
  import Tokenizer

  class Machine {
    const hdr: Header
    const story: array<byte>
    const stack: array<word>
    const operands: array<word>
    var sp: nat
    var bp: nat
    var pc: int
    var count: nat
    var out: string
    var disk: Option<SaveFile>
    var status: Status

    ghost predicate Valid()
      reads this, story, stack, operands
    {
      stack != operands && Sized(Raw())
    }

    ghost function Raw(): RawState
      reads this, story, stack, operands
    {
      RawState(hdr, story[..], stack[..], sp, bp, pc, operands[..], count, out, disk, status)
    }

    /** The state this machine is in. */
    ghost function Now(): State
      requires Valid()
      reads this, story, stack, operands
    {
      Raw()
    }

    /** A machine with a freshly loaded story: empty stack, outside any routine. */
    constructor (hdr: Header, story: array<byte>, pcStart: word)
      requires story.Length < 0x1_0000_0000
      ensures Valid() && fresh(stack) && fresh(operands) && this.story == story && this.hdr == hdr
      ensures Now() == RawState(hdr, story[..], seq(STACK_CELLS, _ => 0), 0, 0, pcStart, seq(8, _ => 0), 0, "", None, Running)
    {
      this.hdr, this.story := hdr, story;
      stack, operands := new word[STACK_CELLS](_ => 0), new word[8](_ => 0);
      sp, bp, pc, count, out, disk, status := 0, 0, pcStart, 0, "", None, Running;
      new;
      assert stack[..] == seq(STACK_CELLS, _ => 0) && operands[..] == seq(8, _ => 0);
    }

    // ----- variables and the instruction stream

    method FetchByte() returns (b: byte)
      requires Valid()
      modifies this`pc, this`status
      ensures Valid() && (Now(), b) == ZState.FetchByte(old(Now()))
    {
      b := 0;
      if status.Running? {
        if 0 <= pc < story.Length {
          b := story[pc];
          pc := pc + 1;
        } else {
          status := Undefined;
        }
      }
    }

    method VarAddress(v: byte, writing: bool) returns (a: Addr)
      requires Valid()
      modifies this`sp, this`status
      ensures Valid() && (Now(), a) == ZState.VarAddress(old(Now()), v, writing)
    {
      a := Nowhere;
      if !status.Running? {
      } else if v == 0 {
        if writing {
          if sp >= STACK_CELLS {
            status := Died;
          } else {
            a := Cell(sp);
            sp := sp + 1;
          }
        } else {
          var numlocals := if bp != 0 then stack[bp - 1] else 0;
          if sp == 0 || bp + numlocals >= sp {
            status := Died;
          } else {
            sp := sp - 1;
            a := Cell(sp);
          }
        }
      } else if v <= 0xF {
        if bp == 0 {
          status := Undefined;
        } else if stack[bp - 1] <= v - 1 {
          status := Died;
        } else {
          a := Cell(bp + (v - 1));
        }
      } else {
        a := Mem(hdr.globals as int + 2 * (v as int - 0x10));
      }
    }

    method GetWord(a: Addr) returns (w: word)
      requires Valid()
      modifies this`status
      ensures Valid() && (Now(), w) == ZState.GetWord(old(Now()), a)
    {
      w := 0;
      if status.Running? {
        match a
        case Nowhere =>
        case Cell(i) =>
          if i < STACK_CELLS {
            w := Swap(stack[i]);
          } else {
            status := Undefined;
          }
        case Mem(m) =>
          if 0 <= m && m + 2 <= story.Length {
            w := Word(story[m], story[m + 1]);
          } else {
            status := Undefined;
          }
      }
    }

    method PutWord(a: Addr, v: word)
      requires Valid()
      modifies this`status, story, stack
      ensures Valid() && Now() == ZState.PutWord(old(Now()), a, v)
    {
      if status.Running? {
        match a
        case Nowhere =>
        case Cell(i) =>
          if i < STACK_CELLS {
            stack[i] := Swap(v);
          } else {
            status := Undefined;
          }
        case Mem(m) =>
          if 0 <= m && m + 2 <= story.Length {
            story[m], story[m + 1] := Hi(v), Lo(v);
          } else {
            status := Undefined;
          }
      }
    }

    method ReadVar(v: byte) returns (w: word)
      requires Valid()
      modifies this`sp, this`status
      ensures Valid() && (Now(), w) == ZState.ReadVar(old(Now()), v)
    {
      var a := VarAddress(v, false);
      w := GetWord(a);
    }

    method WriteVar(v: byte, w: word)
      requires Valid()
      modifies this`sp, this`status, story, stack
      ensures Valid() && Now() == ZState.WriteVar(old(Now()), v, w)
    {
      var a := VarAddress(v, true);
      PutWord(a, w);
    }

    // ----- calls, returns, branches

    /** Push the five words of a frame header. */
    method PushHeader(storeid: byte, numlocals: byte)
      requires Valid() && sp + HEADER_CELLS <= STACK_CELLS && 0 <= pc < 0x1_0000_0000
      modifies this`sp, stack
      ensures Valid() && sp == old(sp) + HEADER_CELLS
      ensures stack[..] == Overwrite(old(stack[..]), old(sp), FrameHeader(storeid, pc, bp, numlocals))
    {
      stack[sp] := storeid;
      stack[sp + 1] := pc % 0x1_0000;
      stack[sp + 2] := pc / 0x1_0000;
      stack[sp + 3] := bp;
      stack[sp + 4] := numlocals;
      sp := sp + HEADER_CELLS;
    }

    /** Push one local's initial value as it stands in the routine. */
    method CopyLocal(routine: nat, i: nat, ghost s0: State)
      requires Valid() && sp < STACK_CELLS && s0.story == story[..] && InStory(s0, routine + 1 + 2 * i, 2)
      modifies this`sp, stack
      ensures Valid() && sp == old(sp) + 1
      ensures stack[..] == old(stack[..])[old(sp) := InitialLocal(s0, routine, 0, i)]
    {
      var p := routine + 1 + 2 * i;
      var initial := Word(story[p], story[p + 1]);
      assert initial == StoryWord(s0, p);
      stack[sp] := Swap(initial);
      sp := sp + 1;
    }

    /** Push the locals' initial values as they stand in the routine. */
    method CopyLocals(routine: nat, numlocals: byte, ghost s0: State)
      requires Valid() && sp + numlocals <= STACK_CELLS && s0.story == story[..]
      requires InStory(s0, routine + 1, 2 * numlocals as int)
      modifies this`sp, stack
      ensures Valid() && sp == old(sp) + numlocals
      ensures stack[..] == Overwrite(old(stack[..]), old(sp),
                seq(numlocals, i requires 0 <= i < numlocals => InitialLocal(s0, routine, 0, i)))
    {
      ghost var cells, base := stack[..], sp;
      ghost var locals: seq<word> := seq(numlocals, i requires 0 <= i < numlocals => InitialLocal(s0, routine, 0, i));
      var i := 0;
      while i < numlocals
        invariant i <= numlocals && sp == base + i
        invariant stack[..] == Overwrite(cells, base, locals[..i])
      {
        OverwriteGrows(cells, base, locals, i);
        CopyLocal(routine, i, s0);
        i := i + 1;
      }
      assert locals[..i] == locals;
    }

    /** Store the caller's arguments over the first locals. */
    method StoreArguments(args: nat, ghost s0: State)
      requires Valid() && bp + args <= STACK_CELLS && args <= 7 && s0.operands == operands[..]
      modifies stack
      ensures Valid() && stack[..] == Overwrite(old(stack[..]), bp, Arguments(s0, args))
    {
      ghost var cells := stack[..];
      var i := 0;
      while i < args
        invariant i <= args
        invariant forall k :: bp <= k < bp + i ==> stack[k] == Arguments(s0, args)[k - bp]
        invariant forall k :: 0 <= k < STACK_CELLS && !(bp <= k < bp + i) ==> stack[k] == cells[k]
      {
        stack[bp + i] := Swap(operands[i + 1]);
        i := i + 1;
      }
    }

    ghost function Arguments(s0: State, args: nat): (r: seq<word>)
      requires args <= 7
      ensures |r| == args
    {
      seq(args, i requires 0 <= i < args => Swap(s0.operands[i + 1]))
    }

    lemma ArgumentsOverLocals(cells: seq<word>, at: nat, s0: State, routine: nat, numlocals: byte, args: nat)
      requires args <= numlocals && args <= 7 && at + numlocals <= |cells|
      requires InStory(s0, routine + 1, 2 * numlocals as int)
      ensures var raw := seq(numlocals, i requires 0 <= i < numlocals => InitialLocal(s0, routine, 0, i));
        Overwrite(Overwrite(cells, at, raw), at, Arguments(s0, args)) ==
        Overwrite(cells, at, seq(numlocals, i requires 0 <= i < numlocals => InitialLocal(s0, routine, args, i)))
    {
    }

    /** Enter the routine whose packed address is operand 0. */
    method EnterRoutine(storeid: byte)
      requires Valid() && status.Running? && count != 0 && 0 <= pc < 0x1_0000_0000
      modifies this`sp, this`bp, this`pc, this`status, stack
      ensures Valid() && Now() == Enter(old(Now()), storeid)
    {
      var routine := PackedAddress(operands[0]);
      if routine >= story.Length {
        status := Undefined;
        return;
      }
      var numlocals := story[routine];
      if numlocals > 15 {
        status := Died;
        return;
      }
      if sp + HEADER_CELLS + numlocals > STACK_CELLS || routine + 1 + 2 * numlocals as int > story.Length {
        status := Undefined;
        return;
      }
      MakeFrame(storeid, routine, numlocals, Min(count - 1, numlocals), Now());
      pc := routine + 1 + 2 * numlocals as int;
    }

    method MakeFrame(storeid: byte, routine: nat, numlocals: byte, args: nat, ghost s0: State)
      requires Valid() && s0 == Now() && 0 <= pc < 0x1_0000_0000 && args <= numlocals && args <= 7
      requires sp + HEADER_CELLS + numlocals <= STACK_CELLS && InStory(s0, routine + 1, 2 * numlocals as int)
      modifies this`sp, this`bp, stack
      ensures Valid() && bp == s0.sp + HEADER_CELLS && sp == bp + numlocals
      ensures stack[..] == Overwrite(s0.stack, s0.sp,
                FrameHeader(storeid, s0.pc, s0.bp, numlocals)
                + seq(numlocals, i requires 0 <= i < numlocals => InitialLocal(s0, routine, args, i)))
    {
      PushHeader(storeid, numlocals);
      bp := sp;
      CopyLocals(routine, numlocals, s0);
      StoreArguments(args, s0);
      ArgumentsOverLocals(Overwrite(s0.stack, s0.sp, FrameHeader(storeid, s0.pc, s0.bp, numlocals)),
                          bp, s0, routine, numlocals, args);
      OverwriteTwice(s0.stack, s0.sp, FrameHeader(storeid, s0.pc, s0.bp, numlocals),
                     seq(numlocals, i requires 0 <= i < numlocals => InitialLocal(s0, routine, args, i)), bp);
    }

    method OpcodeCall()
      requires Valid()
      modifies this`sp, this`bp, this`pc, this`status, story, stack
      ensures Valid() && Now() == OpCall(old(Now()))
    {
      var storeid := FetchByte();
      if !status.Running? {
        return;
      }
      if count == 0 || operands[0] == 0 {
        WriteVar(storeid, 0);
      } else {
        EnterRoutine(storeid);
      }
    }

    method DoReturn(val: word)
      requires Valid()
      modifies this`sp, this`bp, this`pc, this`status, story, stack
      ensures Valid() && Now() == CallStack.DoReturn(old(Now()), val)
    {
      if !status.Running? {
      } else if bp == 0 {
        status := Died;
      } else if bp < HEADER_CELLS || stack[bp - 2] > STACK_CELLS {
        status := Undefined;
      } else {
        var storeid := PopFrame();
        WriteVar(storeid, val);
      }
    }

    /** Pop the five words of the frame header. */
    method PopFrame() returns (storeid: byte)
      requires Valid() && HEADER_CELLS <= bp && stack[bp - 2] <= STACK_CELLS
      modifies this`sp, this`bp, this`pc
      ensures Valid() && Now() == Leave(old(Now())) && storeid == Lo(old(stack[bp - 5]))
    {
      sp := bp;
      sp := sp - 1;
      sp := sp - 1;
      bp := stack[sp];
      sp := sp - 2;
      pc := Long(stack[sp], stack[sp + 1]);
      sp := sp - 1;
      storeid := Lo(stack[sp]);
    }

    method FetchBranch() returns (branch: byte, byte2: byte)
      requires Valid()
      modifies this`pc, this`status
      ensures Valid() && (Now(), branch, byte2) == Instruction.FetchBranch(old(Now()))
    {
      branch := FetchByte();
      byte2 := 0;
      if branch / 0x40 % 2 == 0 {
        byte2 := FetchByte();
      }
    }

    method DoBranch(truth: bool)
      requires Valid()
      modifies this`sp, this`bp, this`pc, this`status, story, stack
      ensures Valid() && Now() == Instruction.DoBranch(old(Now()), truth)
    {
      var branch, byte2 := FetchBranch();
      if status.Running? && truth == (branch >= 0x80) {
        var offset := BranchOffset(branch, byte2);
        if offset == 0 {
          DoReturn(0);
        } else if offset == 1 {
          DoReturn(1);
        } else {
          pc := pc + offset - 2;
        }
      }
    }

    // ----- operands

    method FetchOperand(optype: nat, i: nat)
      requires Valid() && optype < 3 && i < 8
      modifies this`pc, this`sp, this`status, operands
      ensures Valid() && Now() == Instruction.FetchOperand(old(Now()), optype, i)
    {
      var v: word;
      if optype == 0 {
        var hi := FetchByte();
        var lo := FetchByte();
        v := Word(hi, lo);
      } else if optype == 1 {
        v := FetchByte();
      } else {
        var id := FetchByte();
        v := ReadVar(id);
      }
      if status.Running? {
        operands[i] := v;
      }
    }

    method FetchVarOperands(base: nat) returns (n: nat)
      requires Valid() && base <= 4
      modifies this`pc, this`sp, this`status, operands
      ensures Valid() && (Now(), n) == Instruction.FetchVarOperands(old(Now()), base)
    {
      var types := FetchByte();
      ghost var s1 := Now();
      n := 0;
      while n < 4 && OperandType(types, n) != 3
        invariant n <= 4 && Valid()
        invariant FetchOperandsFrom(Now(), types, n, base) == FetchOperandsFrom(s1, types, 0, base)
      {
        FetchOperand(OperandType(types, n), base + n);
        n := n + 1;
      }
    }

    method FetchOperands(opcode: byte)
      requires Valid()
      modifies this`pc, this`sp, this`status, this`count, operands
      ensures Valid() && Now() == Instruction.FetchOperands(old(Now()), opcode)
    {
      if opcode <= 127 {
        FetchOperand(if opcode / 0x40 % 2 == 1 then 2 else 1, 0);
        FetchOperand(if opcode / 0x20 % 2 == 1 then 2 else 1, 1);
        count := 2;
      } else if opcode <= 175 {
        FetchOperand(opcode / 0x10 % 4, 0);
        count := 1;
      } else if opcode <= 191 {
        count := 0;
      } else {
        var n := FetchVarOperands(0);
        if opcode == 236 || opcode == 250 {
          if n == 4 {
            var m := FetchVarOperands(4);
            n := n + m;
          } else {
            var skipped := FetchByte();
          }
        }
        count := n;
      }
    }

    // ----- objects

    /** The address of an object's record; object 0 and numbers beyond 255 make the interpreter die. */
    method GetObjectPtr(id: word) returns (ptr: nat)
      requires Valid() && status.Running?
      modifies this`status
      ensures Valid()
      ensures var r := Objects.ObjectPtr(hdr.objtab, id);
        if r.Ok? then status.Running? && ptr == r.value else status == r.why
    {
      ptr := 0;
      if id == 0 || id > 255 {
        status := Died;
      } else {
        ptr := Objects.RecordAddress(hdr.objtab, id);
      }
    }

    method Peek(a: nat) returns (b: byte)
      requires Valid() && status.Running?
      modifies this`status
      ensures Valid()
      ensures var r := Objects.ByteAt(story[..], a);
        if r.Ok? then status.Running? && b == r.value else status == r.why
    {
      b := 0;
      if a < story.Length {
        b := story[a];
      } else {
        status := Undefined;
      }
    }

    method Poke(a: nat, v: byte)
      requires Valid() && status.Running?
      modifies this`status, story
      ensures Valid()
      ensures var r := Objects.WithByte(old(story[..]), a, v);
        if r.Ok? then status.Running? && story[..] == r.value else status == r.why
    {
      if a < story.Length {
        story[a] := v;
      } else {
        status := Undefined;
      }
    }

    /** Find the link byte that names an object, starting from its parent's child byte. */
    method FindLink(parentptr: nat, id: word) returns (ptr: nat)
      requires Valid() && status.Running?
      requires Objects.FindLink(story[..], hdr.objtab, parentptr + Objects.CHILD, id, story.Length) != Stop(Hung)
      modifies this`status
      ensures Valid()
      ensures var r := Objects.FindLink(story[..], hdr.objtab, parentptr + Objects.CHILD, id, story.Length);
        if r.Ok? then status.Running? && ptr == r.value else status == r.why
    {
      ghost var bytes := story[..];
      ghost var fuel: nat := story.Length;
      ghost var link := Objects.FindLink(bytes, hdr.objtab, parentptr + Objects.CHILD, id, fuel);
      ptr := parentptr + Objects.CHILD;
      var b := Peek(ptr);
      while status.Running? && b != id
        invariant Valid()
        invariant status.Running? ==>
                    ptr < story.Length && b == bytes[ptr] && Objects.FindLink(bytes, hdr.objtab, ptr, id, fuel) == link
        invariant !status.Running? ==> link == Stop(status)
        decreases status.Running?, fuel
      {
        ptr := GetObjectPtr(b);
        if status.Running? {
          ptr := ptr + Objects.SIBLING;
          fuel := fuel - 1;
          b := Peek(ptr);
        }
      }
    }

    /** Take an object out of its parent's list of children. */
    method UnparentObject(id: word)
      requires Valid() && status.Running? && Objects.Unparent(story[..], hdr.objtab, id) != Stop(Hung)
      modifies this`status, story
      ensures Valid()
      ensures var r := Objects.Unparent(old(story[..]), hdr.objtab, id);
        if r.Ok? then status.Running? && story[..] == r.value else status == r.why
    {
      var obj := GetObjectPtr(id);
      if !status.Running? {
        return;
      }
      var parent := Peek(obj + Objects.PARENT);
      if !status.Running? || parent == 0 {
        return;
      }
      var parentptr := GetObjectPtr(parent);
      var link := FindLink(parentptr, id);
      if status.Running? {
        var sibling := Peek(obj + Objects.SIBLING);
        if status.Running? {
          Poke(link, sibling);
        }
      }
    }

    method InsertObj(id: word, dest: word)
      requires Valid() && status.Running? && Objects.InsertObj(story[..], hdr.objtab, id, dest) != Stop(Hung)
      modifies this`status, story
      ensures Valid()
      ensures var r := Objects.InsertObj(old(story[..]), hdr.objtab, id, dest);
        if r.Ok? then status.Running? && story[..] == r.value else status == r.why
    {
      var objptr := GetObjectPtr(id);
      if !status.Running? {
        return;
      }
      var dstptr := GetObjectPtr(dest);
      if !status.Running? {
        return;
      }
      UnparentObject(id);
      if !status.Running? {
        return;
      }
      Poke(objptr + Objects.PARENT, Lo(dest));
      if !status.Running? {
        return;
      }
      var first := Peek(dstptr + Objects.CHILD);
      if !status.Running? {
        return;
      }
      Poke(objptr + Objects.SIBLING, first);
      if status.Running? {
        Poke(dstptr + Objects.CHILD, Lo(id));
      }
    }

    method RemoveObj(id: word)
      requires Valid() && status.Running? && Objects.RemoveObj(story[..], hdr.objtab, id) != Stop(Hung)
      modifies this`status, story
      ensures Valid()
      ensures var r := Objects.RemoveObj(old(story[..]), hdr.objtab, id);
        if r.Ok? then status.Running? && story[..] == r.value else status == r.why
    {
      var objptr := GetObjectPtr(id);
      if !status.Running? {
        return;
      }
      UnparentObject(id);
      if !status.Running? {
        return;
      }
      Poke(objptr + Objects.PARENT, 0);
      if status.Running? {
        Poke(objptr + Objects.SIBLING, 0);
      }
    }

    // ----- properties

    method PeekWord(a: nat) returns (w: word)
      requires Valid() && status.Running?
      modifies this`status
      ensures Valid()
      ensures var r := Properties.WordAt(story[..], a);
        if r.Ok? then status.Running? && w == r.value else status == r.why
    {
      w := 0;
      if a + 1 < story.Length {
        w := Word(story[a], story[a + 1]);
      } else {
        status := Undefined;
      }
    }

    method FirstProp(id: word) returns (ptr: nat)
      requires Valid() && status.Running?
      modifies this`status
      ensures Valid()
      ensures var r := Properties.FirstProp(story[..], hdr.objtab, id);
        if r.Ok? then status.Running? && ptr == r.value else status == r.why
    {
      ptr := GetObjectPtr(id);
      if status.Running? {
        ptr := PeekWord(ptr + Objects.PROPERTIES);
        if status.Running? {
          var words := Peek(ptr);
          ptr := ptr + 2 * words as nat + 1;
        }
      }
    }

    /** Walk an object's entries, highest number first, to a property; with `first`, to the first entry. */
    method GetObjectProperty(id: word, prop: word, first: bool) returns (found: Properties.Found)
      requires Valid() && status.Running?
      modifies this`status
      ensures Valid()
      ensures var r := Properties.GetObjectProperty(story[..], hdr.objtab, id, prop, first);
        if r.Ok? then status.Running? && found == r.value else status == r.why
    {
      found := Properties.Missing;
      ghost var bytes := story[..];
      var ptr := FirstProp(id);
      if !status.Running? {
        return;
      }
      ghost var result := Properties.FindProp(bytes, ptr, prop, first);
      while true
        invariant Valid() && status.Running?
        invariant Properties.FindProp(bytes, ptr, prop, first) == result
        decreases story.Length - ptr
      {
        if ptr >= story.Length {
          status := Undefined;
          return;
        }
        var info := story[ptr];
        ptr := ptr + 1;
        var num := Properties.Num(info);
        var size := Properties.Size(info);
        if num == prop || first {
          found := Properties.At(ptr, size);
          return;
        } else if num < prop {
          return;
        }
        ptr := ptr + size;
      }
    }

    method PutProp(id: word, prop: word, value: word)
      requires Valid() && status.Running?
      modifies this`status, story
      ensures Valid()
      ensures var r := Properties.PutProp(old(story[..]), hdr.objtab, id, prop, value);
        if r.Ok? then status.Running? && story[..] == r.value else status == r.why
    {
      var found := GetObjectProperty(id, prop, false);
      if !status.Running? {
        return;
      }
      if found.Missing? {
        status := Died;
      } else if found.size == 1 {
        Poke(found.addr, Lo(value));
      } else {
        Poke(found.addr, Hi(value));
        if status.Running? {
          Poke(found.addr + 1, Lo(value));
        }
      }
    }

    method GetDefaultProp(prop: word) returns (w: word)
      requires Valid() && status.Running?
      modifies this`status
      ensures Valid()
      ensures var r := Properties.DefaultProp(story[..], hdr.objtab, prop);
        if r.Ok? then status.Running? && w == r.value else status == r.why
    {
      w := 0;
      if prop > 31 {
      } else if hdr.objtab + 2 * prop as nat < 2 {
        status := Undefined;
      } else {
        w := PeekWord(hdr.objtab + 2 * prop as nat - 2);
      }
    }

    method GetProp(id: word, prop: word) returns (w: word)
      requires Valid() && status.Running?
      modifies this`status
      ensures Valid()
      ensures var r := Properties.GetProp(story[..], hdr.objtab, id, prop);
        if r.Ok? then status.Running? && w == r.value else status == r.why
    {
      w := 0;
      var found := GetObjectProperty(id, prop, false);
      if !status.Running? {
        return;
      }
      if found.Missing? {
        w := GetDefaultProp(prop);
      } else if found.size == 1 {
        w := Peek(found.addr);
      } else {
        w := PeekWord(found.addr);
      }
    }

    method GetNextProp(id: word, prop: word) returns (w: word)
      requires Valid() && status.Running?
      modifies this`status
      ensures Valid()
      ensures var r := Properties.GetNextProp(story[..], hdr.objtab, id, prop);
        if r.Ok? then status.Running? && w == r.value else status == r.why
    {
      w := 0;
      var firstProp := prop == 0;
      var found := GetObjectProperty(id, prop, firstProp);
      if !status.Running? {
        return;
      }
      if found.Missing? {
        status := Died;
      } else {
        var info := Peek(if firstProp then found.addr - 1 else found.addr + found.size);
        w := Properties.Num(info);
      }
    }

    // ----- text

    /** Print the string at `addr`. */
    method PrintString(addr: nat)
      requires Valid() && status.Running?
      requires !Text.StringAt(story[..], addr, Text.Table(story[..], hdr.abbrtab)).Runaway?
      modifies this`status, this`out
      ensures Valid() && Now() == Instruction.PrintString(old(Now()), addr)
    {
      var died, text, length := Decoder.PrintZscii(story, hdr.abbrtab, addr, false);
      if died {
        status := Died;
      } else {
        out := out + text;
      }
    }

    /** Print the string that follows the opcode. */
    method PrintInline()
      requires Valid() && status.Running? && Instruction.PrintInline(Now()).status != Undefined
      modifies this`status, this`out, this`pc
      ensures Valid() && Now() == Instruction.PrintInline(old(Now()))
    {
      var died, text, length := Decoder.PrintZscii(story, hdr.abbrtab, pc, false);
      if died {
        status := Died;
      } else {
        out := out + text;
        pc := pc + length;
      }
    }

    // ----- reading a line

    /** Put the delivered characters into the text buffer and close them with a NUL. */
    method PutLine(input: nat, part: seq<byte>)
      requires Valid() && input + |part| + 1 <= story.Length
      modifies story
      ensures Valid() && story[..] == Overwrite(old(story[..]), input, part + [0])
    {
      var i := 0;
      while i < |part|
        invariant i <= |part|
        invariant forall k :: input <= k < input + i ==> story[k] == part[k - input]
        invariant forall k :: 0 <= k < story.Length && !(input <= k < input + i) ==> story[k] == old(story[k])
      {
        story[input + i] := part[i];
        i := i + 1;
      }
      story[input + |part|] := 0;
    }

    /** Turn the buffered line to lower case, up to the new line or carriage return that ends it. */
    method LowerLine(input: nat, ghost part: seq<byte>)
      requires Valid() && input + |part| + 1 <= story.Length
      requires forall k :: 0 <= k < |part| ==> story[input + k] == part[k]
      requires story[input + |part|] == 0
      modifies story
      ensures Valid() && story[..] == Overwrite(old(story[..]), input, Lowered(part) + [0])
    {
      ghost var cells := story[..];
      var i := 0;
      while story[input + i] != 0
        invariant i <= |part| && LineEnd(part, i) == LineEnd(part, 0)
        invariant forall k :: input <= k < input + i ==> story[k] == LowerChar(part[k - input])
        invariant forall k :: 0 <= k < story.Length && !(input <= k < input + i) ==> story[k] == cells[k]
        decreases |part| - i
      {
        var ch := story[input + i];
        assert ch == part[i];
        if 'A' as int <= ch <= 'Z' as int {
          story[input + i] := ch + 32;
        } else if ch == 10 || ch == 13 {
          story[input + i] := 0;
          break;
        }
        i := i + 1;
      }
    }

    /** Put the delivered characters into the text buffer, in lower case and closed. */
    method FillTextBuffer(input: nat, part: seq<byte>)
      requires Valid() && input + |part| + 1 <= story.Length
      modifies story
      ensures Valid() && story[..] == Overwrite(old(story[..]), input, Lowered(part) + [0])
    {
      ghost var s0 := story[..];
      PutLine(input, part);
      LowerLine(input, part);
      LineOverwritten(s0, input, part);
    }

    lemma LineOverwritten(s0: seq<byte>, input: nat, part: seq<byte>)
      requires input + |part| + 1 <= |s0|
      ensures Overwrite(Overwrite(s0, input, part + [0]), input, Lowered(part) + [0]) == Overwrite(s0, input, Lowered(part) + [0])
    {
    }

    /** Read a line and tokenize it. */
    method OpcodeRead(typed: seq<byte>)
      requires Valid() && status.Running? && Meaningful(ReadLine(Now(), typed))
      modifies this`status, story
      ensures Valid() && Now() == ReadLine(old(Now()), typed)
    {
      var text: nat, parse: nat := operands[0], operands[1];
      var inputlen := story[text];
      if inputlen < 3 {
        status := Died;
        return;
      }
      var parselen := story[parse];
      if parselen == 0 || typed == [] {
        status := Died;
        return;
      }
      ghost var s0 := Now();
      var input, part := text + 1, LinePart(typed, inputlen - 1);
      ghost var bytes, line := ReadsLine(s0, typed, input, part);
      FillTextBuffer(input, part);
      Tokenizer.TokenizeUserInput(story, hdr.dict, text, parse, line);
    }

    lemma ReadsLine(s: State, typed: seq<byte>, input: nat, part: seq<byte>) returns (bytes: seq<byte>, line: seq<byte>)
      requires s.status.Running? && ReadLine(s, typed).status.Running?
      requires var text := s.operands[0];
        InStory(s, text, 1) && s.story[text] >= 3 && input == text as int + 1
        && part == LinePart(typed, s.story[text] - 1)
      ensures input + |part| + 1 <= |s.story| && bytes == Overwrite(s.story, input, Lowered(part) + [0])
      ensures var text: nat, parse: nat := s.operands[0], s.operands[1];
        && parse < |bytes| && Tokenizer.Buffers(bytes, s.hdr.dict, text, parse, line, Tokenizer.Capacity(bytes, parse))
        && Tokenizer.Encodable(line, Tokenizer.Words(bytes, s.hdr.dict, parse, line))
        && parse + 2 + 4 * |Tokenizer.Words(bytes, s.hdr.dict, parse, line)| <= |bytes|
        && ReadLine(s, typed) == s.(story := Tokenizer.Tokenized(bytes, s.hdr.dict, parse, line))
    {
      TypedLine(s, typed, input, part);
      bytes, line := WithLine(s, typed).value.0, WithLine(s, typed).value.1;
    }

    lemma TypedLine(s: State, typed: seq<byte>, input: nat, part: seq<byte>)
      requires WithLine(s, typed).Ok?
      requires var text := s.operands[0];
        InStory(s, text, 1) && s.story[text] >= 3 && input == text as int + 1
        && part == LinePart(typed, s.story[text] - 1)
      ensures input + |part| + 1 <= |s.story|
      ensures WithLine(s, typed).value.0 == Overwrite(s.story, input, Lowered(part) + [0])
    {
    }

    // ----- saving and restoring

    method OpcodeSave(result: SaveResult) returns (okay: bool)
      requires Valid() && status.Running?
      modifies this`status, this`disk
      ensures Valid() && (Now(), okay) == SaveGame(old(Now()), result)
    {
      okay := false;
      if result.NotOpened? || pc < 0 || story.Length < hdr.staticMem {
        status := Undefined;
      } else if result.Broken? {
        disk := if result.left.Some? && SizedFile(result.left.value) then result.left else None;
      } else if hdr.staticMem == 0 {
        disk := None;
      } else {
        disk := Some(SaveFile(story[..hdr.staticMem], pc, sp, stack[..], bp));
        okay := true;
      }
    }

    method OpcodeRestore()
      requires Valid() && status.Running? && Meaningful(RestoreGame(Now()))
      modifies this`status, this`pc, this`sp, this`bp, story, stack
      ensures Valid() && Now() == RestoreGame(old(Now()))
    {
      var f := disk.value;
      if hdr.staticMem == 0 || |f.dynamic| != hdr.staticMem {
        status := Died;
        return;
      }
      CopyDynamic(f.dynamic);
      CopyStack(f.stack);
      pc, sp, bp := f.pc, f.sp, f.bp;
    }

    method CopyDynamic(bytes: seq<byte>)
      requires Valid() && |bytes| <= story.Length
      modifies story
      ensures Valid() && story[..] == bytes + old(story[..])[|bytes|..]
    {
      ghost var cells := story[..];
      var i := 0;
      while i < |bytes|
        invariant i <= |bytes|
        invariant forall k :: 0 <= k < story.Length ==> story[k] == if k < i then bytes[k] else cells[k]
      {
        story[i] := bytes[i];
        i := i + 1;
      }
    }

    method CopyStack(cells: seq<word>)
      requires Valid() && |cells| == STACK_CELLS
      modifies stack
      ensures Valid() && stack[..] == cells
    {
      var i := 0;
      while i < STACK_CELLS
        invariant i <= STACK_CELLS && forall k :: 0 <= k < i ==> stack[k] == cells[k]
      {
        stack[i] := cells[i];
        i := i + 1;
      }
    }

    // ----- instructions

    /** The program gives this outcome a meaning: it ends, and stays inside story and stack. */
    static ghost predicate Meaningful(s: State) {
      s.status.Running? || s.status.Quit? || s.status.Died?
    }

    method StoreTarget() returns (a: Addr)
      requires Valid()
      modifies this`pc, this`sp, this`status
      ensures Valid() && (Now(), a) == Instruction.StoreTarget(old(Now()))
    {
      var v := FetchByte();
      a := VarAddress(v, true);
    }

    method StoreResult(w: word)
      requires Valid()
      modifies this`pc, this`sp, this`status, story, stack
      ensures Valid() && Now() == Instruction.StoreResult(old(Now()), Ok(w))
    {
      var a := StoreTarget();
      PutWord(a, w);
    }

    method Increment(v: byte, delta: int) returns (w: word)
      requires Valid()
      modifies this`sp, this`status, story, stack
      ensures Valid() && (Now(), w) == Instruction.Increment(old(Now()), v, delta)
    {
      var a := VarAddress(v, true);
      var current := GetWord(a);
      w := ToWord(current + delta);
      PutWord(a, w);
    }

    /** Whether operand 0 equals any of the others. */
    method EqualsAny() returns (equal: bool)
      requires Valid()
      ensures equal == Instruction.EqualsAny(operands[..], 1, count)
    {
      var i := 1;
      while i < count
        invariant i >= 1
        invariant Instruction.EqualsAny(operands[..], i, count) == Instruction.EqualsAny(operands[..], 1, count)
      {
        if operands[0] == operands[i] {
          return true;
        }
        i := i + 1;
      }
      return false;
    }

    method LoadWord()
      requires Valid() && status.Running?
      modifies this`pc, this`sp, this`status, story, stack
      ensures Valid() && Now() == Instruction.StoreResult(old(Now()), WordAtIndex(old(Now())))
    {
      var a := StoreTarget();
      if status.Running? {
        var w := PeekWord(WordIndex(operands[0], operands[1]));
        if status.Running? {
          PutWord(a, w);
        }
      }
    }

    method LoadByte()
      requires Valid() && status.Running?
      modifies this`pc, this`sp, this`status, story, stack
      ensures Valid() && Now() == Instruction.StoreResult(old(Now()), ByteAtIndex(old(Now())))
    {
      var a := StoreTarget();
      if status.Running? {
        var w := Peek(ByteIndex(operands[0], operands[1]));
        if status.Running? {
          PutWord(a, w);
        }
      }
    }

    /** Arithmetic; dividing by zero makes the interpreter die once the target has been taken. */
    method StoreArithmetic(op: byte)
      requires Valid() && status.Running?
      modifies this`pc, this`sp, this`status, story, stack
      ensures Valid()
      ensures Now() == Instruction.StoreResult(old(Now()), Arithmetic(op, old(operands[0]), old(operands[1])))
    {
      var a := StoreTarget();
      if status.Running? {
        var result := Arithmetic(op, operands[0], operands[1]);
        if result.Stop? {
          status := result.why;
        } else {
          PutWord(a, result.value);
        }
      }
    }

    method PerformOnNumbers(op: byte) returns (next: Next)
      requires Valid() && status.Running?
      modifies this`pc, this`sp, this`status, story, stack
      ensures Valid() && (Now(), next) == WorkOnNumbers(old(Now()), op)
    {
      var a, b := operands[0], operands[1];
      next := Continue;
      match op
      case 1 =>
        var equal := EqualsAny();
        next := Branch(equal);
      case 2 => next := Branch(Signed(a) < Signed(b));
      case 3 => next := Branch(Signed(a) > Signed(b));
      case 4 =>
        var w := Increment(Lo(a), -1);
        next := Branch(Signed(w) < Signed(b));
      case 5 =>
        var w := Increment(Lo(a), 1);
        next := Branch(Signed(w) > Signed(b));
      case 7 => next := Branch(BitAnd(a, b) == b);
      case 13 => WriteVar(Lo(a), b);
      case 15 => LoadWord();
      case 16 => LoadByte();
      case _ => StoreArithmetic(op);
    }

    method PerformOnText(op: byte) returns (next: Next)
      requires Valid() && status.Running? && WorkOnText(Now(), op).0.status != Undefined
      modifies this`pc, this`status, this`out
      ensures Valid() && (Now(), next) == WorkOnText(old(Now()), op)
    {
      next := Continue;
      match op
      case 135 => PrintString(operands[0]);
      case 138 =>
        var obj := GetObjectPtr(operands[0]);
        if status.Running? {
          var addr := PeekWord(obj + Objects.PROPERTIES);
          if status.Running? {
            PrintString(addr as nat + 1);
          }
        }
      case 141 => PrintString(PackedAddress(operands[0]));
      case 178 => PrintInline();
      case 179 =>
        PrintInline();
        if status.Running? {
          out := out + "\n";
        }
        next := Return(1);
      case 187 => out := out + "\n";
      case 229 => out := out + Text.ZsciiText(operands[0]);
      case _ => out := out + Decimal(Signed(operands[0]));
    }

    /** Store an object's parent, sibling or child. */
    method StoreRelation(field: nat) returns (w: word)
      requires Valid() && status.Running?
      modifies this`pc, this`sp, this`status, story, stack
      ensures Valid() && Now() == Instruction.StoreResult(old(Now()), Relation(old(Now()), field))
      ensures status.Running? ==> Relation(old(Now()), field) == Ok(w)
    {
      w := 0;
      var a := StoreTarget();
      if status.Running? {
        var obj := GetObjectPtr(operands[0]);
        if status.Running? {
          w := Peek(obj + field);
          if status.Running? {
            PutWord(a, w);
          }
        }
      }
    }

    /** get_prop, get_prop_addr, get_next_prop and get_prop_len: store what they find. */
    method StorePropertyFact(op: byte)
      requires Valid() && status.Running? && op in {17, 18, 19, 132}
      modifies this`pc, this`sp, this`status, story, stack
      ensures Valid()
      ensures Now() == Instruction.StoreResult(old(Now()), PropertyFact(old(Now()), op))
    {
      var a := StoreTarget();
      if status.Running? {
        var w: word := 0;
        match op {
          case 17 => w := GetProp(operands[0], operands[1]);
          case 18 =>
            var found := GetObjectProperty(operands[0], operands[1], false);
            w := if found.Missing? then 0 else ToWord(found.addr);
          case 19 => w := GetNextProp(operands[0], operands[1]);
          case _ =>
            if operands[0] != 0 {
              var info := Peek(operands[0] - 1);
              w := Properties.Size(info);
            }
        }
        if status.Running? {
          PutWord(a, w);
        }
      }
    }

    ghost function PropertyFact(s: State, op: byte): Outcome<word>
      requires op in {17, 18, 19, 132}
    {
      if op == 17 then Properties.GetProp(s.story, s.hdr.objtab, s.operands[0], s.operands[1])
      else if op == 18 then Properties.GetPropAddr(s.story, s.hdr.objtab, s.operands[0], s.operands[1])
      else if op == 19 then Properties.GetNextProp(s.story, s.hdr.objtab, s.operands[0], s.operands[1])
      else Properties.GetPropLen(s.story, s.operands[0])
    }

    /** The byte that holds an attribute. */
    method AttributeAt(id: word, attr: word) returns (ptr: nat, b: byte)
      requires Valid() && status.Running?
      modifies this`status
      ensures Valid()
      ensures var r := AttributeByte(old(Now()), id, attr);
        if r.Ok? then status.Running? && (ptr, b) == r.value else status == r.why
    {
      b := 0;
      ptr := GetObjectPtr(id);
      if status.Running? {
        ptr := ptr + attr as nat / 8;
        b := Peek(ptr);
      }
    }

    method SetAttribute(id: word, attr: word, on: bool)
      requires Valid() && status.Running?
      modifies this`status, story
      ensures Valid() && Now() == WithStory(old(Now()), WithAttribute(old(Now()), id, attr, on))
    {
      var ptr, b := AttributeAt(id, attr);
      if status.Running? {
        var mask := AttributeMask(attr);
        if HasBit(b, mask) != on {
          story[ptr] := ToByte(if on then b + mask else b - mask);
        }
      }
    }

    method PerformOnObjects(op: byte) returns (next: Next)
      requires Valid() && status.Running? && op in ON_OBJECTS && WorkOnObjects(Now(), op).0.status != Hung
      modifies this`pc, this`sp, this`status, story, stack
      ensures Valid()
      ensures var r := WorkOnObjects(old(Now()), op);
        status == r.0.status && (status.Running? ==> (Now(), next) == r)
    {
      var a, b := operands[0], operands[1];
      next := Continue;
      match op
      case 6 =>
        if a != 0 {
          var obj := GetObjectPtr(a);
          if status.Running? {
            var parent := Peek(obj + Objects.PARENT);
            next := Branch(parent == b);
          }
        }
      case 10 =>
        var ptr, v := AttributeAt(a, b);
        next := Branch(HasBit(v, AttributeMask(b)));
      case 11 => SetAttribute(a, b, true);
      case 12 =>
        if a != 0 {
          SetAttribute(a, b, false);
        }
      case 14 => InsertObj(a, b);
      case 129 =>
        var w := StoreRelation(Objects.SIBLING);
        next := Branch(w != 0);
      case 130 =>
        var w := StoreRelation(Objects.CHILD);
        next := Branch(w != 0);
      case 131 =>
        var w := StoreRelation(Objects.PARENT);
      case 137 => RemoveObj(a);
      case 227 => PutProp(a, b, operands[2]);
      case _ => StorePropertyFact(op);
    }

    /** The instructions that are neither numbers, objects nor text. */
    method PerformOnMachine(op: byte, env: Env) returns (next: Next)
      requires Valid() && status.Running?
      requires Meaningful(WorkOnMachine(Now(), op, env).0)
      modifies this`pc, this`sp, this`status, story, stack
      ensures Valid()
      ensures (Now(), next) == WorkOnMachine(old(Now()), op, env)
    {
      var a := operands[0];
      next := Continue;
      match op
      case 128 => next := Branch(a == 0);
      case 133 =>
        var w := Increment(Lo(a), 1);
      case 134 =>
        var w := Increment(Lo(a), -1);
      case 139 => next := Return(a);
      case 140 => pc := pc + Signed(a) - 2;
      case 142 =>
        var w := ReadVar(Lo(a));
        StoreResult(w);
      case 143 => StoreResult(0xFFFF - a);
      case 176 => next := Return(1);
      case 177 => next := Return(0);
      case 180 =>
      case 181 => next := Save;
      case 182 => next := Restore;
      case 184 =>
        var w := ReadVar(0);
        next := Return(w);
      case 185 =>
        var discarded := VarAddress(0, false);
      case 186 => status := Quit;
      case 188 =>
      case 224 => next := Call;
      case 225 => StoreWord(WordIndex(a, operands[1]), operands[2]);
      case 226 => StoreByte(ByteIndex(a, operands[1]), Lo(operands[2]));
      case 228 => OpcodeRead(env.typed);
      case 231 => StoreResult(if Signed(a) <= 0 then 0 else env.random % a + 1);
      case 232 => WriteVar(0, a);
      case _ => status := Died;
    }

    method StoreWord(a: nat, v: word)
      requires Valid() && status.Running?
      modifies this`status, story
      ensures Valid() && Now() == PutStoryWord(old(Now()), a, v)
    {
      if a + 2 <= story.Length {
        story[a], story[a + 1] := Hi(v), Lo(v);
      } else {
        status := Undefined;
      }
    }

    method StoreByte(a: nat, v: byte)
      requires Valid() && status.Running?
      modifies this`status, story
      ensures Valid() && Now() == PutStoryByte(old(Now()), a, v)
    {
      if a < story.Length {
        story[a] := v;
      } else {
        status := Undefined;
      }
    }

    /** Do the work of an instruction whose operands have been fetched. */
    method Perform(op: byte, env: Env) returns (next: Next)
      requires Valid() && status.Running? && Meaningful(Work(Now(), op, env).0)
      modifies this`pc, this`sp, this`status, this`out, story, stack
      ensures Valid()
      ensures var r := Work(old(Now()), op, env);
        status == r.0.status && (status.Running? ==> (Now(), next) == r)
    {
      if op in ON_NUMBERS {
        next := PerformOnNumbers(op);
      } else if op in ON_OBJECTS {
        next := PerformOnObjects(op);
      } else if op in ON_TEXT {
        next := PerformOnText(op);
      } else {
        next := PerformOnMachine(op, env);
      }
    }

    /** Run one instruction whose outcome the program gives a meaning. The machine ends up as the
        model says: stopped for the same reason, or running on in the same state. */
    method RunInstruction(env: Env)
      requires Valid() && status.Running? && Meaningful(Step(Now(), env))
      modifies this, story, stack, operands
      ensures Valid()
      ensures status == Step(old(Now()), env).status
      ensures status.Running? ==> Now() == Step(old(Now()), env)
    {
      var opcode := FetchByte();
      if !status.Running? {
        return;
      }
      FetchOperands(opcode);
      if !status.Running? {
        return;
      }
      var next := Perform(Canonical(opcode), env);
      if status.Running? {
        match next
        case Continue =>
        case Branch(truth) => DoBranch(truth);
        case Return(val) => DoReturn(val);
        case Call => OpcodeCall();
        case Save =>
          var okay := OpcodeSave(env.save);
          DoBranch(okay);
        case Restore =>
          OpcodeRestore();
          DoBranch(true);
      }
    }

    /** The main loop, for as many instructions as there are answers from outside: unless it stops, the
        machine goes through exactly the states of the run. */
    method RunInstructions(envs: seq<Env>)
      requires Valid() && status.Running?
      requires forall i :: 0 <= i <= |envs| ==> Meaningful(Runs.Run(Now(), envs[..i]))
      modifies this, story, stack, operands
      ensures Valid()
      ensures status == Runs.Run(old(Now()), envs).status
      ensures status.Running? ==> Now() == Runs.Run(old(Now()), envs)
      ensures status.Running? && WellFormed(old(Now())) && Runs.WithoutRestore(old(Now()), envs) ==> WellFormed(Now())
    {
      ghost var s0 := Now();
      var i := 0;
      while i < |envs| && status.Running?
        invariant i <= |envs| && Valid()
        invariant status == Runs.Run(s0, envs[..i]).status
        invariant status.Running? ==> Now() == Runs.Run(s0, envs[..i])
      {
        assert envs[..i + 1][..i] == envs[..i];
        RunInstruction(envs[i]);
        i := i + 1;
      }
      if status.Running? {
        assert envs[..i] == envs;
        if WellFormed(s0) && Runs.WithoutRestore(s0, envs) {
          Runs.RunsStayWellFormed(s0, envs);
        }
      } else {
        Runs.RunOfStopped(s0, envs, i);
      }
    }
  }
}
