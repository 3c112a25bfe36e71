/** The object tree over whole runs of the machine: only `insert_obj` and `remove_obj` change it. */
module ForestRuns {
  import opened Bytes
  import opened ZState
  import opened CallStack
  import opened Instruction
  import opened Runs
  import O = Objects
  import P = Properties
  import Tokenizer

  const INSERT: byte := 14
  const REMOVE: byte := 137

  // ----- keeping the links

  /** No link byte of objects 1 to n changed. */
  ghost predicate LinksKept(a: seq<byte>, b: seq<byte>, objtab: nat, n: nat) {
    |b| == |a| && forall x :: 0 <= x < |a| && O.IsLink(objtab, n, x) ==> b[x] == a[x]
  }

  /** Equal links are the same forest. */
  lemma LinksKeepForest(a: seq<byte>, b: seq<byte>, objtab: nat, n: nat, kids: seq<seq<nat>>)
    requires O.HoldsForest(a, objtab, n, kids) && LinksKept(a, b, objtab, n)
    ensures O.HoldsForest(b, objtab, n, kids)
  {
    forall id, field | 1 <= id <= n && O.PARENT <= field <= O.CHILD
      ensures O.FieldOf(b, objtab, n, id, field) == O.FieldOf(a, objtab, n, id, field)
    {
      assert O.LinkOf(objtab, id, O.RecordAddress(objtab, id) + field);
    }
    ColumnKept(a, b, objtab, n, O.PARENT);
    ColumnKept(a, b, objtab, n, O.SIBLING);
    ColumnKept(a, b, objtab, n, O.CHILD);
  }

  lemma ColumnKept(a: seq<byte>, b: seq<byte>, objtab: nat, n: nat, field: nat)
    requires O.HasObjects(a, objtab, n) && |b| == |a| && field < O.RECORD_BYTES
    requires forall id :: 1 <= id <= n ==> O.FieldOf(b, objtab, n, id, field) == O.FieldOf(a, objtab, n, id, field)
    ensures O.Column(b, objtab, n, field) == O.Column(a, objtab, n, field)
  {
  }

  /** The story may have changed, but no link did, and the header is the same. */
  ghost predicate Quiet(s: State, t: State, n: nat) {
    t.hdr == s.hdr && LinksKept(s.story, t.story, s.hdr.objtab, n)
  }

  lemma QuietTwice(s: State, t: State, u: State, n: nat)
    requires Quiet(s, t, n) && Quiet(t, u, n)
    ensures Quiet(s, u, n)
  {
  }

  /** No global variable lies on a link. */
  ghost predicate GlobalsApart(hdr: Header, n: nat) {
    forall x: nat :: hdr.globals <= x < hdr.globals + 480 ==> !O.IsLink(hdr.objtab, n, x)
  }

  // ----- writing variables

  lemma VarAddressQuiet(s: State, v: byte, writing: bool)
    ensures var (t, a) := VarAddress(s, v, writing);
      && t.story == s.story && t.hdr == s.hdr
      && (a.Mem? ==> s.hdr.globals <= a.a && a.a + 2 <= s.hdr.globals + 480)
  {
  }

  lemma PutWordQuiet(s: State, a: Addr, v: word, n: nat)
    requires GlobalsApart(s.hdr, n) && (a.Mem? ==> s.hdr.globals <= a.a && a.a + 2 <= s.hdr.globals + 480)
    ensures Quiet(s, PutWord(s, a, v), n)
  {
  }

  lemma WriteVarQuiet(s: State, v: byte, val: word, n: nat)
    requires GlobalsApart(s.hdr, n)
    ensures Quiet(s, WriteVar(s, v, val), n)
  {
    VarAddressQuiet(s, v, true);
    PutWordQuiet(VarAddress(s, v, true).0, VarAddress(s, v, true).1, val, n);
  }

  lemma StoreResultQuiet(s: State, result: Outcome<word>, n: nat)
    requires GlobalsApart(s.hdr, n)
    ensures Quiet(s, StoreResult(s, result), n)
  {
    var (s1, v) := FetchByte(s);
    VarAddressQuiet(s1, v, true);
    if StoreTarget(s).0.status.Running? && result.Ok? {
      PutWordQuiet(StoreTarget(s).0, StoreTarget(s).1, result.value, n);
    }
  }

  lemma IncrementQuiet(s: State, v: byte, delta: int, n: nat)
    requires GlobalsApart(s.hdr, n)
    ensures Quiet(s, Increment(s, v, delta).0, n)
  {
    VarAddressQuiet(s, v, true);
    var (s1, a) := VarAddress(s, v, true);
    var val := Increment(s, v, delta).1;
    PutWordQuiet(s1, a, val, n);
    assert GetWord(s1, a).0.story == s1.story;
  }

  lemma ReturnQuiet(s: State, val: word, n: nat)
    requires GlobalsApart(s.hdr, n)
    ensures Quiet(s, DoReturn(s, val), n)
  {
    if s.status.Running? && HEADER_CELLS <= s.bp && s.stack[s.bp - 2] <= STACK_CELLS {
      WriteVarQuiet(Leave(s), Lo(s.stack[s.bp - 5]), val, n);
    }
  }

  lemma BranchQuiet(s: State, truth: bool, n: nat)
    requires GlobalsApart(s.hdr, n)
    ensures Quiet(s, DoBranch(s, truth), n)
  {
    var s1 := FetchBranch(s).0;
    assert s1.story == s.story && s1.hdr == s.hdr;
    ReturnQuiet(s1, 0, n);
    ReturnQuiet(s1, 1, n);
  }

  lemma CallQuiet(s: State, n: nat)
    requires GlobalsApart(s.hdr, n)
    ensures Quiet(s, OpCall(s), n)
  {
    var (s1, store) := FetchByte(s);
    if s1.status.Running? {
      WriteVarQuiet(s1, store, 0, n);
    }
  }

  lemma GoOnQuiet(s: State, next: Next, env: Env, n: nat)
    requires GlobalsApart(s.hdr, n) && !next.Restore?
    ensures Quiet(s, GoOn(s, next, env), n)
  {
    match next
    case Continue =>
    case Branch(truth) => BranchQuiet(s, truth, n);
    case Return(val) => ReturnQuiet(s, val, n);
    case Call => CallQuiet(s, n);
    case Save => BranchQuiet(SaveGame(s, env.save).0, SaveGame(s, env.save).1, n);
  }

  // ----- fetching

  lemma FetchOperandQuiet(s: State, optype: nat, i: nat)
    requires optype < 3 && i < 8
    ensures FetchOperand(s, optype, i).story == s.story && FetchOperand(s, optype, i).hdr == s.hdr
  {
    if optype == 2 {
      var (s0, id) := FetchByte(s);
      VarAddressQuiet(s0, id, false);
      var (s1, a) := VarAddress(s0, id, false);
      assert GetWord(s1, a).0.story == s1.story;
    }
  }

  lemma {:induction false} FetchOperandsFromQuiet(s: State, types: byte, i: nat, base: nat)
    requires i <= 4 && base <= 4
    ensures FetchOperandsFrom(s, types, i, base).0.story == s.story && FetchOperandsFrom(s, types, i, base).0.hdr == s.hdr
    decreases 4 - i
  {
    if i < 4 && OperandType(types, i) != 3 {
      FetchOperandQuiet(s, OperandType(types, i), base + i);
      FetchOperandsFromQuiet(FetchOperand(s, OperandType(types, i), base + i), types, i + 1, base);
    }
  }

  lemma FetchVarOperandsQuiet(s: State, base: nat)
    requires base <= 4
    ensures FetchVarOperands(s, base).0.story == s.story && FetchVarOperands(s, base).0.hdr == s.hdr
  {
    var (s1, types) := FetchByte(s);
    FetchOperandsFromQuiet(s1, types, 0, base);
  }

  lemma FetchOperandsQuiet(s: State, opcode: byte)
    ensures FetchOperands(s, opcode).story == s.story && FetchOperands(s, opcode).hdr == s.hdr
  {
    if opcode <= 127 {
      var first, second := if opcode / 0x40 % 2 == 1 then 2 else 1, if opcode / 0x20 % 2 == 1 then 2 else 1;
      FetchOperandQuiet(s, first, 0);
      FetchOperandQuiet(FetchOperand(s, first, 0), second, 1);
    } else if opcode <= 175 {
      FetchOperandQuiet(s, opcode / 0x10 % 4, 0);
    } else if opcode > 191 {
      FetchVarOperandsQuiet(s, 0);
      FetchVarOperandsQuiet(FetchVarOperands(s, 0).0, 4);
    }
  }

  /** Fetching an instruction writes nothing to the story. */
  lemma FetchedQuiet(s: State)
    ensures Fetched(s).0.story == s.story && Fetched(s).0.hdr == s.hdr
  {
    var (s1, opcode) := FetchByte(s);
    FetchOperandsQuiet(s1, opcode);
  }

  // ----- stores of instructions

  /** The bytes `read` may write: the text buffer after its length byte, and the parse buffer. */
  ghost predicate BuffersApart(s: State, n: nat) {
    var text, parse := s.operands[0] as nat, s.operands[1] as nat;
    && (forall x: nat :: text < x && text < |s.story| && x <= text + s.story[text] ==> !O.IsLink(s.hdr.objtab, n, x))
    && (forall x: nat :: parse < x < parse + 2 + 4 * 255 ==> !O.IsLink(s.hdr.objtab, n, x))
  }

  /** A fetched instruction stores to no link: attributes are below 32, properties are written under
      well-formed tables, and `storew`, `storeb` and `read` aim elsewhere. */
  ghost predicate StoresElsewhere(s: State, op: byte, n: nat) {
    var objtab, a, b := s.hdr.objtab, s.operands[0], s.operands[1];
    && ((op == 11 || op == 12) ==> b < 32)
    && (op == 227 ==> 1 <= a <= n && b != 0 && P.Tables(s.story, objtab, n))
    && (op == 225 ==> !O.IsLink(objtab, n, WordIndex(a, b)) && !O.IsLink(objtab, n, WordIndex(a, b) + 1))
    && (op == 226 ==> !O.IsLink(objtab, n, ByteIndex(a, b)))
    && (op == 228 ==> BuffersApart(s, n))
  }

  lemma StoreQuiet(a: seq<byte>, objtab: nat, n: nat, x: nat, v: byte)
    requires x < |a| && !O.IsLink(objtab, n, x)
    ensures LinksKept(a, a[x := v], objtab, n)
  {
  }

  /** The four attribute bytes of a record are no links. */
  lemma AttributesAreNoLinks(objtab: nat, n: nat, id: nat, k: nat)
    requires 1 <= id && k < O.PARENT
    ensures !O.IsLink(objtab, n, O.RecordAddress(objtab, id) + k)
  {
  }

  lemma AttributeQuiet(s: State, id: word, attr: word, on: bool, n: nat)
    requires attr < 32
    ensures var r := WithAttribute(s, id, attr, on); r.Ok? ==> LinksKept(s.story, r.value, s.hdr.objtab, n)
  {
    var objtab := s.hdr.objtab;
    var obj := O.ObjectPtr(objtab, id);
    if obj.Ok? {
      AttributesAreNoLinks(objtab, n, id, attr / 8);
      if obj.value + attr / 8 < |s.story| {
        var mask, b: int := AttributeMask(attr), s.story[obj.value + attr / 8];
        StoreQuiet(s.story, objtab, n, obj.value + attr / 8, ToByte(b + mask));
        StoreQuiet(s.story, objtab, n, obj.value + attr / 8, ToByte(b - mask));
      }
    }
  }

  /** A property's data lies apart from the records. */
  lemma PutPropQuiet(story: seq<byte>, objtab: nat, n: nat, id: nat, prop: word, value: word)
    requires P.Tables(story, objtab, n) && 1 <= id <= n && prop != 0
    ensures var r := P.PutProp(story, objtab, id, prop, value); r.Ok? ==> LinksKept(story, r.value, objtab, n)
  {
    assert P.Placed(story, objtab, n, id);
    var es := P.Table(story, objtab, id);
    if P.Lists(es, prop) {
      var i :| 0 <= i < |es| && es[i].num == prop;
      var e := es[i];
      P.PutPropWrites(story, objtab, id, i, e, value);
      P.DataInTable(story, objtab, id, i, e.addr);
      if e.size > 1 {
        P.DataInTable(story, objtab, id, i, e.addr + 1);
      }
      DataIsNoLink(story, objtab, n, e, value);
    } else {
      P.MissingFound(story, objtab, id, prop);
    }
  }

  lemma DataIsNoLink(story: seq<byte>, objtab: nat, n: nat, e: P.Entry, value: word)
    requires 1 <= e.size && e.addr + e.size <= |story|
    requires e.addr < objtab || objtab + O.DEFAULTS_BYTES + 9 * n <= e.addr
    requires e.size > 1 ==> e.addr + 1 < objtab || objtab + O.DEFAULTS_BYTES + 9 * n <= e.addr + 1
    ensures LinksKept(story, P.StoreIn(story, e, value), objtab, n)
  {
  }

  /** The typed line goes into the text buffer. */
  lemma LineInBuffer(s: State, typed: seq<byte>, text: nat)
    requires WithLine(s, typed).Ok? && text == s.operands[0]
    ensures text < |s.story| && |WithLine(s, typed).value.0| == |s.story|
    ensures forall x :: 0 <= x < |s.story| && !(text < x <= text + s.story[text]) ==>
              WithLine(s, typed).value.0[x] == s.story[x]
  {
    var buffer := Lowered(LinePart(typed, s.story[text] - 1)) + [0];
    assert |buffer| <= s.story[text] && WithLine(s, typed).value.0 == Overwrite(s.story, text + 1, buffer);
  }

  /** The records go into the parse buffer. */
  lemma RecordsInBuffer(story: seq<byte>, dict: nat, parse: nat, line: seq<byte>)
    requires Tokenizer.HasDictionary(story, dict) && |line| <= 255 && parse < |story|
    requires parse + 2 + 4 * |Tokenizer.Words(story, dict, parse, line)| <= |story|
    ensures var after := Tokenizer.Tokenized(story, dict, parse, line);
      && |after| == |story|
      && forall x :: 0 <= x < |story| && !(parse < x < parse + 2 + 4 * 255) ==> after[x] == story[x]
  {
    var ws := Tokenizer.Words(story, dict, parse, line);
    BlockElsewhere(story, |ws|, Tokenizer.Records(story, dict, line, ws), parse, parse + 2 + 4 * |ws|);
  }

  lemma BlockElsewhere(story: seq<byte>, count: byte, rs: seq<byte>, parse: nat, end: nat)
    requires end == parse + 2 + |rs| <= |story|
    ensures var after := story[..parse + 1] + [count] + rs + story[end..];
      |after| == |story| && forall x :: 0 <= x < |story| && !(parse < x < end) ==> after[x] == story[x]
  {
  }

  lemma ReadQuiet(s: State, typed: seq<byte>, n: nat)
    requires BuffersApart(s, n)
    ensures Quiet(s, ReadLine(s, typed), n)
  {
    if ReadLine(s, typed).status.Running? {
      var (story, line) := WithLine(s, typed).value;
      var text, parse: nat := s.operands[0], s.operands[1];
      LineInBuffer(s, typed, text);
      assert LinksKept(s.story, story, s.hdr.objtab, n);
      RecordsInBuffer(story, s.hdr.dict, parse, line);
      assert LinksKept(story, Tokenizer.Tokenized(story, s.hdr.dict, parse, line), s.hdr.objtab, n);
      ReadWrites(s, typed, story, line, parse);
    }
  }

  lemma ReadWrites(s: State, typed: seq<byte>, story: seq<byte>, line: seq<byte>, parse: nat)
    requires WithLine(s, typed) == Ok((story, line)) && parse == s.operands[1] && ReadLine(s, typed).status.Running?
    ensures Tokenizer.HasDictionary(story, s.hdr.dict) && |line| <= 255 && parse < |story|
    ensures parse + 2 + 4 * |Tokenizer.Words(story, s.hdr.dict, parse, line)| <= |story|
    ensures ReadLine(s, typed) == s.(story := Tokenizer.Tokenized(story, s.hdr.dict, parse, line))
  {
  }

  // ----- one instruction

  lemma NumbersQuiet(s: State, op: byte, n: nat)
    requires s.status.Running? && GlobalsApart(s.hdr, n)
    ensures Quiet(s, WorkOnNumbers(s, op).0, n)
  {
    var a, b := s.operands[0], s.operands[1];
    match op
    case 1 | 2 | 3 | 7 =>
    case 4 => IncrementQuiet(s, Lo(a), -1, n);
    case 5 => IncrementQuiet(s, Lo(a), 1, n);
    case 13 => WriteVarQuiet(s, Lo(a), b, n);
    case 15 => StoreResultQuiet(s, WordAtIndex(s), n);
    case 16 => StoreResultQuiet(s, ByteAtIndex(s), n);
    case _ => StoreResultQuiet(s, Arithmetic(op, a, b), n);
  }

  lemma ObjectsQuiet(s: State, op: byte, n: nat)
    requires s.status.Running? && GlobalsApart(s.hdr, n) && StoresElsewhere(s, op, n)
    requires op in ON_OBJECTS && op != INSERT && op != REMOVE
    ensures Quiet(s, WorkOnObjects(s, op).0, n)
  {
    var objtab, a, b := s.hdr.objtab, s.operands[0], s.operands[1];
    match op
    case 6 | 10 =>
    case 11 => AttributeQuiet(s, a, b, true, n);
    case 12 => AttributeQuiet(s, a, b, false, n);
    case 17 => StoreResultQuiet(s, P.GetProp(s.story, objtab, a, b), n);
    case 18 => StoreResultQuiet(s, P.GetPropAddr(s.story, objtab, a, b), n);
    case 19 => StoreResultQuiet(s, P.GetNextProp(s.story, objtab, a, b), n);
    case 129 => StoreResultQuiet(s, Relation(s, O.SIBLING), n);
    case 130 => StoreResultQuiet(s, Relation(s, O.CHILD), n);
    case 131 => StoreResultQuiet(s, Relation(s, O.PARENT), n);
    case 132 => StoreResultQuiet(s, P.GetPropLen(s.story, a), n);
    case _ => PutPropQuiet(s.story, objtab, n, a, b, s.operands[2]);
  }

  lemma TextQuiet(s: State, op: byte, n: nat)
    requires s.status.Running?
    ensures Quiet(s, WorkOnText(s, op).0, n)
  {
  }

  lemma PutStoryQuiet(s: State, a: nat, v: word, n: nat)
    requires !O.IsLink(s.hdr.objtab, n, a)
    ensures Quiet(s, PutStoryByte(s, a, Lo(v)), n)
    ensures !O.IsLink(s.hdr.objtab, n, a + 1) ==> Quiet(s, PutStoryWord(s, a, v), n)
  {
  }

  lemma MachineQuiet(s: State, op: byte, env: Env, n: nat)
    requires s.status.Running? && GlobalsApart(s.hdr, n) && StoresElsewhere(s, op, n)
    ensures Quiet(s, WorkOnMachine(s, op, env).0, n)
  {
    var a := s.operands[0];
    match op
    case 133 => IncrementQuiet(s, Lo(a), 1, n);
    case 134 => IncrementQuiet(s, Lo(a), -1, n);
    case 142 =>
      var (s1, val) := ReadVar(s, Lo(a));
      ReadVarQuiet(s, Lo(a));
      StoreResultQuiet(s1, Ok(val), n);
    case 143 => StoreResultQuiet(s, Ok(0xFFFF - a), n);
    case 184 => ReadVarQuiet(s, 0);
    case 185 => VarAddressQuiet(s, 0, false);
    case 225 => PutStoryQuiet(s, WordIndex(a, s.operands[1]), s.operands[2], n);
    case 226 => PutStoryQuiet(s, ByteIndex(a, s.operands[1]), s.operands[2], n);
    case 228 => ReadQuiet(s, env.typed, n);
    case 231 => StoreResultQuiet(s, Ok(if Signed(a) <= 0 then 0 else env.random % a + 1), n);
    case 232 => WriteVarQuiet(s, 0, a, n);
    case _ =>
  }

  lemma ReadVarQuiet(s: State, v: byte)
    ensures ReadVar(s, v).0.story == s.story && ReadVar(s, v).0.hdr == s.hdr
  {
    VarAddressQuiet(s, v, false);
    var (s1, a) := VarAddress(s, v, false);
    assert GetWord(s1, a).0.story == s1.story;
  }

  lemma WorkQuiet(s: State, op: byte, env: Env, n: nat)
    requires GlobalsApart(s.hdr, n) && StoresElsewhere(s, op, n) && op != INSERT && op != REMOVE
    ensures Quiet(s, Work(s, op, env).0, n)
  {
    if s.status.Running? {
      if op in ON_NUMBERS {
        NumbersQuiet(s, op, n);
      } else if op in ON_OBJECTS {
        ObjectsQuiet(s, op, n);
      } else if op in ON_TEXT {
        TextQuiet(s, op, n);
      } else {
        MachineQuiet(s, op, env, n);
      }
    }
  }

  /** Every instruction but the two moves and `restore` keeps all links, as long as its stores aim
      elsewhere. */
  lemma StepQuiet(s: State, env: Env, n: nat)
    requires GlobalsApart(s.hdr, n) && !Restores(s, env)
    requires var (s1, op) := Fetched(s); op != INSERT && op != REMOVE && StoresElsewhere(s1, op, n)
    ensures Quiet(s, Step(s, env), n)
  {
    var (s1, op) := Fetched(s);
    var (c, next) := Work(s1, op, env);
    FetchedQuiet(s);
    WorkQuiet(s1, op, env, n);
    GoOnQuiet(c, next, env, n);
    QuietTwice(s1, c, Step(s, env), n);
  }

  // ----- runs

  /** The next instruction is a move of existing objects, or no restore and its stores aim elsewhere. */
  ghost predicate Orderly(s: State, env: Env, n: nat) {
    var (s1, op) := Fetched(s);
    if !s1.status.Running? then true
    else if op == INSERT then 1 <= s1.operands[0] <= n && 1 <= s1.operands[1] <= n
    else if op == REMOVE then 1 <= s1.operands[0] <= n
    else !Restores(s, env) && StoresElsewhere(s1, op, n)
  }

  ghost predicate OrderlyRun(s: State, envs: seq<Env>, n: nat)
    decreases |envs|
  {
    envs != [] ==> OrderlyRun(s, envs[..|envs| - 1], n) && Orderly(Run(s, envs[..|envs| - 1]), envs[|envs| - 1], n)
  }

  /** What the next instruction does to the child lists. */
  ghost function Moved(kids: seq<seq<nat>>, s: State): seq<seq<nat>>
    requires |kids| >= 1
  {
    var (s1, op) := Fetched(s);
    if s1.status.Running? && op == INSERT && s1.operands[1] < |kids| then O.MoveTo(kids, s1.operands[0], s1.operands[1])
    else if s1.status.Running? && op == REMOVE then O.Detach(kids, s1.operands[0])
    else kids
  }

  ghost function ForestAlong(kids: seq<seq<nat>>, s: State, envs: seq<Env>): (r: seq<seq<nat>>)
    requires |kids| >= 1
    ensures |r| == |kids|
    decreases |envs|
  {
    if envs == [] then kids
    else Moved(ForestAlong(kids, s, envs[..|envs| - 1]), Run(s, envs[..|envs| - 1]))
  }

  lemma MoveStep(s: State, env: Env, n: nat, kids: seq<seq<nat>>, s1: State, op: byte)
    requires O.HoldsForest(s.story, s.hdr.objtab, n, kids) && Fetched(s) == (s1, op) && s1.status.Running?
    requires op == INSERT || op == REMOVE
    requires Orderly(s, env, n)
    ensures Step(s, env).hdr == s.hdr && O.HoldsForest(Step(s, env).story, s.hdr.objtab, n, Moved(kids, s))
  {
    FetchedQuiet(s);
    var a, b := s1.operands[0], s1.operands[1];
    if op == INSERT {
      O.InsertMoves(s.story, s.hdr.objtab, n, kids, a, b);
    } else {
      O.RemoveDetaches(s.story, s.hdr.objtab, n, kids, a);
    }
    WorkOfMove(s1, op, env);
  }

  lemma WorkOfMove(s: State, op: byte, env: Env)
    requires s.status.Running? && (op == INSERT || op == REMOVE)
    ensures op == INSERT ==>
              Work(s, op, env) == (WithStory(s, O.InsertObj(s.story, s.hdr.objtab, s.operands[0], s.operands[1])), Continue)
    ensures op == REMOVE ==>
              Work(s, op, env) == (WithStory(s, O.RemoveObj(s.story, s.hdr.objtab, s.operands[0])), Continue)
  {
    assert op !in ON_NUMBERS && op in ON_OBJECTS;
    assert Work(s, op, env) == WorkOnObjects(s, op);
  }

  /** One instruction keeps the forest, moved as the instruction says. */
  lemma StepKeepsForest(s: State, env: Env, n: nat, kids: seq<seq<nat>>)
    requires O.HoldsForest(s.story, s.hdr.objtab, n, kids) && GlobalsApart(s.hdr, n) && Orderly(s, env, n)
    ensures Step(s, env).hdr == s.hdr && O.HoldsForest(Step(s, env).story, s.hdr.objtab, n, Moved(kids, s))
  {
    var (s1, op) := Fetched(s);
    if s1.status.Running? && (op == INSERT || op == REMOVE) {
      MoveStep(s, env, n, kids, s1, op);
    } else if s1.status.Running? {
      StepQuiet(s, env, n);
      LinksKeepForest(s.story, Step(s, env).story, s.hdr.objtab, n, kids);
    } else {
      FetchedQuiet(s);
      assert Step(s, env) == s1;
    }
  }

  /** Over every run of the machine, whatever else it does, the object records go on linking the forest
      that the run's insert_obj and remove_obj instructions make of the child lists. */
  lemma {:induction false} RunKeepsForest(s: State, envs: seq<Env>, n: nat, kids: seq<seq<nat>>)
    requires O.HoldsForest(s.story, s.hdr.objtab, n, kids) && GlobalsApart(s.hdr, n) && OrderlyRun(s, envs, n)
    ensures Run(s, envs).hdr == s.hdr
    ensures O.HoldsForest(Run(s, envs).story, s.hdr.objtab, n, ForestAlong(kids, s, envs))
    decreases |envs|
  {
    if envs != [] {
      var before, env := envs[..|envs| - 1], envs[|envs| - 1];
      RunKeepsForest(s, before, n, kids);
      StepKeepsForest(Run(s, before), env, n, ForestAlong(kids, s, before));
    }
  }
}
