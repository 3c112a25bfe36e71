/** One instruction of the version 3 machine: fetching its operands, doing its work, and going on
    to the next instruction, a branch target, a routine or its caller. */
module Instruction {
  import opened Bytes
  import opened ZState
  import opened CallStack
  import opened Text
  import Objects
  import Properties
  import Tokenizer

  /** What a step takes from outside: the random number drawn, the line typed, how writing the
      save file went. */
  datatype SaveResult = Written | NotOpened | Broken(left: Option<SaveFile>)
  datatype Env = Env(random: word, typed: seq<byte>, save: SaveResult)

  // ----- branches

  /** The signed offset of a branch: six bits, or fourteen when the byte is the first of two. */
  function BranchOffset(branch: byte, byte2: byte): int {
    if branch / 0x40 % 2 == 1 then branch % 0x40
    else if branch % 0x40 < 0x20 then 0x100 * (branch as int % 0x40) + byte2
    else 0x100 * (branch as int % 0x40 - 0x40) + byte2
  }

  /** Read the branch byte (and a second one for a long branch). */
  function FetchBranch(s: State): (r: (State, byte, byte))
    ensures SameFrame(s, r.0)
  {
    var (s1, branch) := FetchByte(s);
    var (s2, byte2) := if branch / 0x40 % 2 == 1 then (s1, 0) else FetchByte(s1);
    (s2, branch, byte2)
  }

  /** Branch when the condition is the one asked for; offsets 0 and 1 return false and true. */
  function DoBranch(s: State, truth: bool): State {
    var (s1, branch, byte2) := FetchBranch(s);
    var offset := BranchOffset(branch, byte2);
    if !s1.status.Running? || truth != (branch >= 0x80) then s1
    else if offset == 0 then DoReturn(s1, 0)
    else if offset == 1 then DoReturn(s1, 1)
    else s1.(pc := s1.pc + offset - 2)
  }

  // ----- operands

  function FetchWord(s: State): (r: (State, word))
    ensures SameFrame(s, r.0)
  {
    var (s1, hi) := FetchByte(s);
    var (s2, lo) := FetchByte(s1);
    (s2, Word(hi, lo))
  }

  /** Fetch operand `i`: a large constant, a small one, or a variable's value. */
  function FetchOperand(s: State, optype: nat, i: nat): (r: State)
    requires optype < 3 && i < 8
    ensures SameFrame(s, r)
  {
    var (s1, v) :=
      if optype == 0 then FetchWord(s)
      else if optype == 1 then FetchByte(s)
      else var (s0, id) := FetchByte(s); ReadVar(s0, id);
    if s1.status.Running? then s1.(operands := s1.operands[i := v]) else s1
  }

  /** The two-bit type of operand `i` in a byte of operand types. */
  function OperandType(types: byte, i: nat): (t: nat)
    requires i < 4
    ensures t < 4
  {
    if i == 0 then types / 0x40 else if i == 1 then types / 0x10 % 4 else if i == 2 then types / 4 % 4 else types % 4
  }

  /** Fetch operands `i` to 3 of a types byte until one is omitted; the result counts them. */
  function FetchOperandsFrom(s: State, types: byte, i: nat, base: nat): (r: (State, nat))
    requires i <= 4 && base <= 4
    ensures SameFrame(s, r.0) && r.1 <= 4
    decreases 4 - i
  {
    if i == 4 || OperandType(types, i) == 3 then (s, i)
    else FetchOperandsFrom(FetchOperand(s, OperandType(types, i), base + i), types, i + 1, base)
  }

  function FetchVarOperands(s: State, base: nat): (r: (State, nat))
    requires base <= 4
    ensures SameFrame(s, r.0) && r.1 <= 4
  {
    var (s1, types) := FetchByte(s);
    FetchOperandsFrom(s1, types, 0, base)
  }

  /** The operands of an opcode, by its form. */
  function FetchOperands(s: State, opcode: byte): (r: State)
    ensures SameFrame(s, r)
  {
    if opcode <= 127 then
      var s1 := FetchOperand(s, if opcode / 0x40 % 2 == 1 then 2 else 1, 0);
      var s2 := FetchOperand(s1, if opcode / 0x20 % 2 == 1 then 2 else 1, 1);
      s2.(count := 2)
    else if opcode <= 175 then
      FetchOperand(s, opcode / 0x10 % 4, 0).(count := 1)
    else if opcode <= 191 then
      s.(count := 0)
    else
      var (s1, n) := FetchVarOperands(s, 0);
      if opcode != 236 && opcode != 250 then s1.(count := n)
      else if n < 4 then FetchByte(s1).0.(count := n)
      else
        var (s2, m) := FetchVarOperands(s1, 4);
        s2.(count := 4 + m)
  }

  // ----- the work of an instruction

  /** How an instruction goes on once its own work is done. */
  datatype Next = Continue | Branch(truth: bool) | Return(val: word) | Call | Save | Restore

  /** The variable named by the next byte, about to be written. */
  function StoreTarget(s: State): (r: (State, Addr))
    ensures SameFrame(s, r.0)
    ensures r.0.status.Running? && InFrame(s) ==> Owned(r.0, r.1)
  {
    var (s1, v) := FetchByte(s);
    VarAddress(s1, v, true)
  }

  /** Store a result in the variable named by the next byte, if there is a result. */
  function StoreResult(s: State, result: Outcome<word>): (r: State)
    ensures SameFrame(s, r)
  {
    var (s1, a) := StoreTarget(s);
    if !s1.status.Running? then s1
    else if result.Stop? then Halt(s1, result.why)
    else PutWord(s1, a, result.value)
  }

  function WithStory(s: State, story: Outcome<seq<byte>>): (r: State)
    requires story.Ok? ==> |story.value| == |s.story|
    ensures SameFrame(s, r)
  {
    if !s.status.Running? then s
    else if story.Stop? then Halt(s, story.why)
    else s.(story := story.value)
  }

  /** Add to a variable. Its address is taken as for writing, so variable 0 pushes a word and
      changes that word. */
  function Increment(s: State, v: byte, delta: int): (r: (State, word))
    ensures SameFrame(s, r.0)
  {
    var (s1, a) := VarAddress(s, v, true);
    var (s2, current) := GetWord(s1, a);
    var val := ToWord(current + delta);
    if s2.status.Running? then (PutWord(s1, a, val), val) else (s2, val)
  }

  function BitAnd(a: word, b: word): word {
    (a as bv16 & b as bv16) as int
  }

  function BitOr(a: word, b: word): word {
    (a as bv16 | b as bv16) as int
  }

  /** Division and remainder as C has them: the quotient is cut off towards zero. */
  function Quotient(a: int, b: int): int
    requires b != 0
  {
    if (a < 0) == (b < 0) then Abs(a) / Abs(b) else -(Abs(a) / Abs(b))
  }

  function Remainder(a: int, b: int): int
    requires b != 0
  {
    a - b * Quotient(a, b)
  }

  function Abs(a: int): nat {
    if a < 0 then -a else a
  }

  /** The 2OP arithmetic: or, and, add, sub, mul, div, mod. */
  function Arithmetic(op: byte, a: word, b: word): Outcome<word> {
    if op == 8 then Ok(BitOr(a, b))
    else if op == 9 then Ok(BitAnd(a, b))
    else if op == 20 then Ok(ToWord(a + b))
    else if op == 21 then Ok(ToWord(a - b))
    else if op == 22 then Ok(ToWord(Signed(a) * Signed(b)))
    else if b == 0 then Stop(Died)
    else if op == 23 then Ok(ToWord(Quotient(Signed(a), Signed(b))))
    else Ok(ToWord(Remainder(Signed(a), Signed(b))))
  }

  /** The addresses loadw and storew, loadb and storeb use, cut off to 16 bits. */
  function WordIndex(a: word, b: word): nat {
    ToWord(a + 2 * b)
  }

  function ByteIndex(a: word, b: word): nat {
    ToWord(a + b)
  }

  function WordAtIndex(s: State): Outcome<word> {
    Properties.WordAt(s.story, WordIndex(s.operands[0], s.operands[1]))
  }

  function ByteAtIndex(s: State): Outcome<word> {
    var b :- Objects.ByteAt(s.story, ByteIndex(s.operands[0], s.operands[1]));
    Ok(b)
  }

  /** Whether operand 0 equals any of the others. */
  function EqualsAny(operands: seq<word>, i: nat, count: nat): bool
    requires count <= 8 == |operands| && i >= 1
    decreases count - i
  {
    i < count && (operands[0] == operands[i] || EqualsAny(operands, i + 1, count))
  }

  /** 2OP instructions on variables, memory and numbers. */
  function WorkOnNumbers(s: State, op: byte): (r: (State, Next))
    requires s.status.Running?
    ensures SameFrame(s, r.0) && !r.1.Save? && !r.1.Restore?
  {
    var a, b := s.operands[0], s.operands[1];
    match op
    case 1 => (s, Branch(EqualsAny(s.operands, 1, s.count)))
    case 2 => (s, Branch(Signed(a) < Signed(b)))
    case 3 => (s, Branch(Signed(a) > Signed(b)))
    case 4 => var (s1, val) := Increment(s, Lo(a), -1); (s1, Branch(Signed(val) < Signed(b)))
    case 5 => var (s1, val) := Increment(s, Lo(a), 1); (s1, Branch(Signed(val) > Signed(b)))
    case 7 => (s, Branch(BitAnd(a, b) == b))
    case 13 => (WriteVar(s, Lo(a), b), Continue)
    case 15 => (StoreResult(s, WordAtIndex(s)), Continue)
    case 16 => (StoreResult(s, ByteAtIndex(s)), Continue)
    case _ => (StoreResult(s, Arithmetic(op, a, b)), Continue)
  }

  // ----- objects

  /** The mask of an attribute within its byte. */
  function AttributeMask(attr: word): byte {
    var k := attr % 8;
    if k == 0 then 0x80 else if k == 1 then 0x40 else if k == 2 then 0x20 else if k == 3 then 0x10
    else if k == 4 then 8 else if k == 5 then 4 else if k == 6 then 2 else 1
  }

  function HasBit(b: byte, mask: byte): bool
    requires mask != 0
  {
    b / mask % 2 == 1
  }

  function AttributeByte(s: State, id: word, attr: word): Outcome<(nat, byte)> {
    var obj :- Objects.ObjectPtr(s.hdr.objtab, id);
    var b :- Objects.ByteAt(s.story, obj + attr / 8);
    Ok((obj + attr / 8, b))
  }

  function TestAttribute(s: State, id: word, attr: word): Outcome<bool> {
    var at :- AttributeByte(s, id, attr);
    Ok(HasBit(at.1, AttributeMask(attr)))
  }

  function WithAttribute(s: State, id: word, attr: word, on: bool): (r: Outcome<seq<byte>>)
    ensures r.Ok? ==> |r.value| == |s.story|
  {
    var at :- AttributeByte(s, id, attr);
    var mask := AttributeMask(attr);
    if HasBit(at.1, mask) == on then Ok(s.story)
    else if on then Objects.WithByte(s.story, at.0, ToByte(at.1 + mask))
    else Objects.WithByte(s.story, at.0, ToByte(at.1 - mask))
  }

  function ToByte(x: int): byte {
    x % 0x100
  }

  function Relation(s: State, field: nat): Outcome<word> {
    var obj :- Objects.ObjectPtr(s.hdr.objtab, s.operands[0]);
    var b :- Objects.ByteAt(s.story, obj + field);
    Ok(b)
  }

  /** A condition that may stop the machine before it branches. */
  function BranchOn(s: State, truth: Outcome<bool>): (r: (State, Next))
    ensures SameFrame(s, r.0) && (r.1.Continue? || r.1.Branch?)
  {
    if truth.Stop? then (Halt(s, truth.why), Continue) else (s, Branch(truth.value))
  }

  /** get_sibling and get_child store the relation and branch when there is one. */
  function StoreAndBranch(s: State, result: Outcome<word>): (r: (State, Next))
    ensures SameFrame(s, r.0) && r.1.Branch?
  {
    (StoreResult(s, result), Branch(result.Ok? && result.value != 0))
  }

  /** Instructions on objects, their attributes and properties. */
  function WorkOnObjects(s: State, op: byte): (r: (State, Next))
    requires s.status.Running?
    ensures SameFrame(s, r.0) && !r.1.Save? && !r.1.Restore?
  {
    var objtab, a, b := s.hdr.objtab, s.operands[0], s.operands[1];
    match op
    case 6 =>
      if a == 0 then (s, Continue)
      else var parent := Relation(s, Objects.PARENT);
           BranchOn(s, if parent.Ok? then Ok(parent.value == b) else Stop(parent.why))
    case 10 => BranchOn(s, TestAttribute(s, a, b))
    case 11 => (WithStory(s, WithAttribute(s, a, b, true)), Continue)
    case 12 => if a == 0 then (s, Continue) else (WithStory(s, WithAttribute(s, a, b, false)), Continue)
    case 14 => (WithStory(s, Objects.InsertObj(s.story, objtab, a, b)), Continue)
    case 17 => (StoreResult(s, Properties.GetProp(s.story, objtab, a, b)), Continue)
    case 18 => (StoreResult(s, Properties.GetPropAddr(s.story, objtab, a, b)), Continue)
    case 19 => (StoreResult(s, Properties.GetNextProp(s.story, objtab, a, b)), Continue)
    case 129 => StoreAndBranch(s, Relation(s, Objects.SIBLING))
    case 130 => StoreAndBranch(s, Relation(s, Objects.CHILD))
    case 131 => (StoreResult(s, Relation(s, Objects.PARENT)), Continue)
    case 132 => (StoreResult(s, Properties.GetPropLen(s.story, a)), Continue)
    case 137 => (WithStory(s, Objects.RemoveObj(s.story, objtab, a)), Continue)
    case _ => (WithStory(s, Properties.PutProp(s.story, objtab, a, b, s.operands[2])), Continue)
  }

  // ----- text

  /** Append the string at `addr` to the output. */
  function PrintString(s: State, addr: nat): (r: State)
    ensures SameFrame(s, r)
  {
    if !s.status.Running? then s
    else
      var text := StringAt(s.story, addr, Table(s.story, s.hdr.abbrtab));
      match text
      case Chars(t) => s.(out := s.out + t)
      case Dies => Halt(s, Died)
      case Runaway => Halt(s, Undefined)
  }

  /** Print the string that follows the opcode and go on after it. */
  function PrintInline(s: State): (r: State)
    ensures SameFrame(s, r)
  {
    if !s.status.Running? then s
    else if s.pc < 0 || !Terminated(s.story, s.pc) then Halt(s, Undefined)
    else
      var s1 := PrintString(s, s.pc);
      if s1.status.Running? then s1.(pc := s1.pc + ByteLength(s.story, s.pc)) else s1
  }

  function Digits(n: nat): string {
    (if n < 10 then "" else Digits(n / 10)) + [CharFrom('0', n % 10)]
  }

  function Decimal(x: int): string {
    if x < 0 then "-" + Digits(-x) else Digits(x)
  }

  function ShortNameAddress(s: State, id: word): Outcome<nat> {
    var obj :- Objects.ObjectPtr(s.hdr.objtab, id);
    var addr :- Properties.WordAt(s.story, obj + Objects.PROPERTIES);
    Ok(addr as nat + 1)
  }

  /** Instructions that print. */
  function WorkOnText(s: State, op: byte): (r: (State, Next))
    requires s.status.Running?
    ensures SameFrame(s, r.0) && !r.1.Save? && !r.1.Restore?
  {
    match op
    case 135 => (PrintString(s, s.operands[0]), Continue)
    case 138 =>
      var name := ShortNameAddress(s, s.operands[0]);
      (if name.Ok? then PrintString(s, name.value) else Halt(s, name.why), Continue)
    case 141 => (PrintString(s, PackedAddress(s.operands[0])), Continue)
    case 178 => (PrintInline(s), Continue)
    case 179 =>
      var s1 := PrintInline(s);
      (if s1.status.Running? then s1.(out := s1.out + "\n") else s1, Return(1))
    case 187 => (s.(out := s.out + "\n"), Continue)
    case 229 => (s.(out := s.out + ZsciiText(s.operands[0])), Continue)
    case _ => (s.(out := s.out + Decimal(Signed(s.operands[0]))), Continue)
  }

  // ----- reading a line

  /** What the line reader delivers of the typed characters: at most `max`, up to the first new line. */
  function LinePart(typed: seq<byte>, max: nat): (r: seq<byte>)
    ensures |r| <= max
  {
    if typed == [] || max == 0 then [] else if typed[0] == 10 then [10] else [typed[0]] + LinePart(typed[1..], max - 1)
  }

  /** The first new line, carriage return or NUL from `from` on, or the length. */
  function LineEnd(part: seq<byte>, from: nat): (e: nat)
    requires from <= |part|
    ensures from <= e <= |part|
    decreases |part| - from
  {
    if from == |part| || part[from] in {0, 10, 13} then from else LineEnd(part, from + 1)
  }

  function LowerChar(b: byte): byte {
    if 'A' as int <= b <= 'Z' as int then b + 32 else b
  }

  /** The line in lower case, closed at its end. */
  function Lowered(part: seq<byte>): (r: seq<byte>)
    ensures |r| == |part|
  {
    var e := LineEnd(part, 0);
    seq(|part|, k requires 0 <= k < |part| => if k < e then LowerChar(part[k]) else if k == e then 0 else part[k])
  }

  function UpToNul(buffer: seq<byte>): (r: seq<byte>)
    ensures |r| <= |buffer|
  {
    if buffer == [] || buffer[0] == 0 then [] else [buffer[0]] + UpToNul(buffer[1..])
  }

  /** Lines that are commands to the interpreter itself. */
  predicate IsCommand(line: seq<byte>) {
    StartsWith(line, "#script ") || StartsWith(line, "#random ")
  }

  predicate StartsWith(line: seq<byte>, text: string) {
    |text| <= |line| && forall i :: 0 <= i < |text| ==> line[i] == text[i] as int
  }

  /** The story with the typed line in the text buffer. */
  function WithLine(s: State, typed: seq<byte>): (r: Outcome<(seq<byte>, seq<byte>)>)
    ensures r.Ok? ==> |r.value.0| == |s.story|
  {
    var text: nat := s.operands[0];
    if !InStory(s, text, 1) then Stop(Undefined)
    else if s.story[text] < 3 then Stop(Died)
    else if !InStory(s, s.operands[1], 1) then Stop(Undefined)
    else if s.story[s.operands[1]] == 0 || typed == [] then Stop(Died)
    else
      var buffer := Lowered(LinePart(typed, s.story[text] - 1)) + [0];
      if !InStory(s, text + 1, |buffer|) then Stop(Undefined)
      else Ok((Overwrite(s.story, text + 1, buffer), UpToNul(buffer)))
  }

  /** `read`: the typed line, and the parse buffer the tokenizer fills in. */
  ghost function ReadLine(s: State, typed: seq<byte>): (r: State)
    ensures SameFrame(s, r)
  {
    if !s.status.Running? then s
    else
      var got := WithLine(s, typed);
      if got.Stop? then Halt(s, got.why)
      else
        var (story, line) := got.value;
        var text, parse, dict := s.operands[0], s.operands[1], s.hdr.dict;
        if IsCommand(line) || |story| <= parse
           || !Tokenizer.Buffers(story, dict, text, parse, line, Tokenizer.Capacity(story, parse))
        then Halt(s, Unmodelled)
        else if !Tokenizer.Encodable(line, Tokenizer.Words(story, dict, parse, line)) then Halt(s, Undefined)
        else
          WithStory(s, Ok(Tokenizer.Tokenized(story, dict, parse, line)))
  }

  // ----- saving and restoring

  /** Write the dynamic memory, pc, sp, stack and bp to the save file. */
  function SaveGame(s: State, result: SaveResult): (r: (State, bool))
    ensures r.0 == s.(disk := r.0.disk, status := r.0.status) && (r.0.status.Running? ==> s.status.Running?)
    ensures r.1 ==> r.0.status.Running?
  {
    if !s.status.Running? then (s, false)
    else if result.NotOpened? || s.pc < 0 || |s.story| < s.hdr.staticMem then (Halt(s, Undefined), false)
    else if result.Broken? || s.hdr.staticMem == 0 then
      (s.(disk := if result.Broken? && result.left.Some? && SizedFile(result.left.value) then result.left else None), false)
    else
      (s.(disk := Some(SaveFile(s.story[..s.hdr.staticMem], s.pc, s.sp, s.stack, s.bp))), true)
  }

  /** Read the save file back; a file this machine did not write completely makes the interpreter die. */
  function RestoreGame(s: State): State {
    if !s.status.Running? then s
    else if s.disk.None? then Halt(s, Undefined)
    else
      var f := s.disk.value;
      if s.hdr.staticMem == 0 || |f.dynamic| != s.hdr.staticMem then Halt(s, Died)
      else if |s.story| < s.hdr.staticMem then Halt(s, Undefined)
      else s.(story := f.dynamic + s.story[s.hdr.staticMem..], pc := f.pc, sp := f.sp, stack := f.stack, bp := f.bp)
  }

  // ----- one step

  /** The remaining instructions. */
  ghost function WorkOnMachine(s: State, op: byte, env: Env): (r: (State, Next))
    requires s.status.Running?
    ensures SameFrame(s, r.0)
    ensures r.1.Save? <==> op == 181
    ensures r.1.Restore? <==> op == 182
    ensures r.1.Save? || r.1.Restore? ==> r.0 == s
  {
    var a := s.operands[0];
    match op
    case 128 => (s, Branch(a == 0))
    case 133 => (Increment(s, Lo(a), 1).0, Continue)
    case 134 => (Increment(s, Lo(a), -1).0, Continue)
    case 139 => (s, Return(a))
    case 140 => (s.(pc := s.pc + Signed(a) - 2), Continue)
    case 142 => var (s1, val) := ReadVar(s, Lo(a)); (StoreResult(s1, Ok(val)), Continue)
    case 143 => (StoreResult(s, Ok(0xFFFF - a)), Continue)
    case 176 => (s, Return(1))
    case 177 => (s, Return(0))
    case 180 => (s, Continue)
    case 181 => (s, Save)
    case 182 => (s, Restore)
    case 184 => var (s1, val) := ReadVar(s, 0); (s1, Return(val))
    case 185 => (VarAddress(s, 0, false).0, Continue)
    case 186 => (Halt(s, Quit), Continue)
    case 188 => (s, Continue)
    case 224 => (s, Call)
    case 225 => (PutStoryWord(s, WordIndex(a, s.operands[1]), s.operands[2]), Continue)
    case 226 => (PutStoryByte(s, ByteIndex(a, s.operands[1]), Lo(s.operands[2])), Continue)
    case 228 => (ReadLine(s, env.typed), Continue)
    case 231 => (StoreResult(s, Ok(if Signed(a) <= 0 then 0 else env.random % a + 1)), Continue)
    case 232 => (WriteVar(s, 0, a), Continue)
    case 183 => (Halt(s, Unmodelled), Continue)
    case 189 => (Halt(s, Unmodelled), Continue)
    case 233 => (Halt(s, Unmodelled), Continue)
    case 234 => (Halt(s, Unmodelled), Continue)
    case 235 => (Halt(s, Unmodelled), Continue)
    case _ => (Halt(s, Died), Continue)
  }

  /** The opcode an instruction byte stands for, its operand form left aside. */
  function Canonical(opcode: byte): byte {
    if 32 <= opcode <= 127 || 192 <= opcode <= 223 then opcode % 32
    else if 144 <= opcode <= 175 then 128 + opcode % 16
    else opcode
  }

  const ON_NUMBERS: set<byte> := {1, 2, 3, 4, 5, 7, 8, 9, 13, 15, 16, 20, 21, 22, 23, 24}
  const ON_OBJECTS: set<byte> := {6, 10, 11, 12, 14, 17, 18, 19, 129, 130, 131, 132, 137, 227}
  const ON_TEXT: set<byte> := {135, 138, 141, 178, 179, 187, 229, 230}

  ghost function Work(s: State, op: byte, env: Env): (r: (State, Next))
    ensures SameFrame(s, r.0)
    ensures r.1.Save? <==> s.status.Running? && op == 181
    ensures r.1.Restore? <==> s.status.Running? && op == 182
    ensures r.1.Save? || r.1.Restore? ==> r.0 == s
  {
    if !s.status.Running? then (s, Continue)
    else if op in ON_NUMBERS then WorkOnNumbers(s, op)
    else if op in ON_OBJECTS then WorkOnObjects(s, op)
    else if op in ON_TEXT then WorkOnText(s, op)
    else WorkOnMachine(s, op, env)
  }

  ghost function GoOn(s: State, next: Next, env: Env): State {
    match next
    case Continue => s
    case Branch(truth) => DoBranch(s, truth)
    case Return(val) => DoReturn(s, val)
    case Call => OpCall(s)
    case Save => var (s1, okay) := SaveGame(s, env.save); DoBranch(s1, okay)
    case Restore => DoBranch(RestoreGame(s), true)
  }

  /** The state in which an instruction does its work: opcode and operands fetched. */
  ghost function Fetched(s: State): (r: (State, byte))
    ensures SameFrame(s, r.0)
  {
    var (s1, opcode) := FetchByte(s);
    if s1.status.Running? then (FetchOperands(s1, opcode), Canonical(opcode)) else (s1, 0)
  }

  /** One instruction. A machine that has stopped stays as it is. */
  ghost function Step(s: State, env: Env): State {
    var (s1, op) := Fetched(s);
    var (s2, next) := Work(s1, op, env);
    GoOn(s2, next, env)
  }
}
