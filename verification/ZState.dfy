/** The state of a version 3 Z-Machine and the primitive actions every instruction is made of.

    Addresses are offsets into the story file. The stack is the flat array of 2048 native words;
    words that hold variables carry their two bytes in big-endian order, so they are read and
    written through `Swap`, while the words of a frame header are native. */
module ZState {
  import opened Bytes

  const STACK_CELLS: nat := 2048

  /** The header fields the interpreter caches when a story is loaded. */
  datatype Header = Header(dict: word, objtab: word, globals: word, staticMem: word, abbrtab: word)

  /** Why a machine does not run on: the game quit, the interpreter called `die`, the program
      gives the access no meaning (outside the story or the stack), a loop never ends,
      or the instruction is not part of this model. */
  datatype Status = Running | Quit | Died | Undefined | Hung | Unmodelled

  /** Any of the ways to stop. */
  type Ending = st: Status | st != Running witness Died

  /** A value, or the reason why the machine stops before it has one. */
  datatype Outcome<+T> = Ok(value: T) | Stop(why: Ending) {
    predicate IsFailure() {
      Stop?
    }

    function PropagateFailure<U>(): Outcome<U>
      requires Stop?
    {
      Stop(why)
    }

    function Extract(): T
      requires Ok?
    {
      value
    }
  }

  /** What a saved game holds. */
  datatype SaveFile = SaveFile(dynamic: seq<byte>, pc: nat, sp: nat, stack: seq<word>, bp: nat)

  datatype RawState = RawState(
    hdr: Header,
    story: seq<byte>,
    stack: seq<word>,
    sp: nat,
    bp: nat,
    pc: int,
    operands: seq<word>,
    count: nat,
    out: string,
    disk: Option<SaveFile>,
    status: Status)

  predicate SizedFile(f: SaveFile) {
    |f.stack| == STACK_CELLS && f.sp <= STACK_CELLS && f.bp <= STACK_CELLS
  }

  predicate Sized(s: RawState) {
    && |s.stack| == STACK_CELLS
    && s.sp <= STACK_CELLS
    && s.bp <= STACK_CELLS
    && |s.story| < 0x1_0000_0000
    && |s.operands| == 8
    && s.count <= 8
    && (s.disk.Some? ==> SizedFile(s.disk.value))
  }

  type State = s: RawState | Sized(s)
    witness RawState(Header(0, 0, 0, 0, 0), [], seq(STACK_CELLS, _ => 0), 0, 0, 0, seq(8, _ => 0), 0, "", None, Running)

  function Halt(s: State, why: Ending): State {
    s.(status := why)
  }

  // ----- frames, as far as a primitive can see them

  /** The number of locals of the running routine; the code outside any routine has none. */
  function NumLocals(s: State): word {
    if s.bp == 0 then 0 else s.stack[s.bp - 1]
  }

  /** The running routine's locals lie inside the used part of the stack. */
  predicate InFrame(s: State) {
    s.bp + NumLocals(s) <= s.sp
  }

  /** Between `s` and `t` no stack cell below the running routine's locals changed, so neither
      its own frame header nor any older frame did; nothing is said of the stack of a machine that
      stopped. The story keeps its size, and header and save file are the same. */
  predicate SameFrame(s: State, t: State) {
    && t.hdr == s.hdr && |t.story| == |s.story| && t.disk == s.disk
    && (t.status.Running? ==> s.status.Running?)
    && (t.status.Running? && InFrame(s) ==>
          t.bp == s.bp && t.stack[..t.bp] == s.stack[..s.bp] && InFrame(t))
  }

  // ----- variables

  /** Where a variable lives: a stack cell or two bytes of the story. */
  datatype Addr = Cell(i: nat) | Mem(a: int) | Nowhere

  /** A location above the running routine's frame header. */
  predicate Owned(s: State, a: Addr) {
    a.Cell? ==> s.bp <= a.i < s.sp
  }

  /** Variable 0 pushes when written and pops when read; 1 to 15 are the running routine's
      locals; the rest are the globals in the story. */
  function VarAddress(s: State, v: byte, writing: bool): (r: (State, Addr))
    ensures SameFrame(s, r.0)
    ensures r.0.status.Running? && InFrame(s) && (v != 0 || writing) ==> Owned(r.0, r.1)
  {
    if !s.status.Running? then
      (s, Nowhere)
    else if v == 0 then
      if writing then
        if s.sp >= STACK_CELLS then (Halt(s, Died), Nowhere) else (s.(sp := s.sp + 1), Cell(s.sp))
      else
        if s.sp == 0 || s.bp + NumLocals(s) >= s.sp then (Halt(s, Died), Nowhere) else (s.(sp := s.sp - 1), Cell(s.sp - 1))
    else if v <= 0xF then
      if s.bp == 0 then (Halt(s, Undefined), Nowhere)
      else if s.stack[s.bp - 1] <= v - 1 then (Halt(s, Died), Nowhere)
      else (s, Cell(s.bp + (v - 1)))
    else
      (s, Mem(GlobalAddress(s, v)))
  }

  function GlobalAddress(s: State, v: byte): int
    requires 0x10 <= v
  {
    s.hdr.globals as int + 2 * (v as int - 0x10)
  }

  predicate InStory(s: State, a: int, n: nat) {
    0 <= a && a + n <= |s.story|
  }

  /** A big-endian word of the story. */
  function StoryWord(s: State, a: int): word
    requires InStory(s, a, 2)
  {
    Word(s.story[a], s.story[a + 1])
  }

  function GetWord(s: State, a: Addr): (r: (State, word))
    ensures SameFrame(s, r.0)
  {
    match a
    case Nowhere => (s, 0)
    case Cell(i) =>
      if !s.status.Running? then (s, 0) else if i < STACK_CELLS then (s, Swap(s.stack[i])) else (Halt(s, Undefined), 0)
    case Mem(m) =>
      if !s.status.Running? then (s, 0) else if InStory(s, m, 2) then (s, StoryWord(s, m)) else (Halt(s, Undefined), 0)
  }

  function PutWord(s: State, a: Addr, v: word): (r: State)
    ensures s.status.Running? && Owned(s, a) ==> SameFrame(s, r)
    ensures !s.status.Running? ==> r == s
    ensures r.hdr == s.hdr && |r.story| == |s.story| && r.disk == s.disk
  {
    match a
    case Nowhere => s
    case Cell(i) =>
      if !s.status.Running? then s else if i < STACK_CELLS then s.(stack := s.stack[i := Swap(v)]) else Halt(s, Undefined)
    case Mem(m) => if !s.status.Running? then s else PutStoryWord(s, m, v)
  }

  function PutStoryByte(s: State, a: int, v: byte): (r: State)
    ensures SameFrame(s, r)
  {
    if !s.status.Running? then s else if InStory(s, a, 1) then s.(story := s.story[a := v]) else Halt(s, Undefined)
  }

  function PutStoryWord(s: State, a: int, v: word): (r: State)
    ensures SameFrame(s, r)
  {
    if !s.status.Running? then s
    else if InStory(s, a, 2) then s.(story := s.story[a := Hi(v)][a + 1 := Lo(v)])
    else Halt(s, Undefined)
  }

  function ReadVar(s: State, v: byte): (r: (State, word))
    ensures SameFrame(s, r.0)
  {
    var (s1, a) := VarAddress(s, v, false);
    GetWord(s1, a)
  }

  function WriteVar(s: State, v: byte, val: word): (r: State)
    ensures SameFrame(s, r)
  {
    var (s1, a) := VarAddress(s, v, true);
    PutWord(s1, a, val)
  }

  /** The next byte of the instruction stream. */
  function FetchByte(s: State): (r: (State, byte))
    ensures SameFrame(s, r.0)
    ensures r.0.status.Running? ==> InStory(s, s.pc, 1) && r.0 == s.(pc := s.pc + 1)
  {
    if !s.status.Running? then (s, 0)
    else if InStory(s, s.pc, 1) then (s.(pc := s.pc + 1), s.story[s.pc])
    else (Halt(s, Undefined), 0)
  }
}
