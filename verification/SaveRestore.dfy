/** A restored game goes on exactly as the saved one did. */
module SaveRestore {
  import opened Bytes
  import opened ZState
  import opened CallStack
  import opened Instruction
  import opened Runs

  /** Equal in everything that decides how a machine goes on, but for the operands of the last
      instruction, the text already printed and the save file. */
  ghost predicate SameCore(a: State, b: State) {
    && a.hdr == b.hdr && a.story == b.story && a.stack == b.stack
    && a.sp == b.sp && a.bp == b.bp && a.pc == b.pc && a.status == b.status
  }

  lemma FetchByteOnCore(a: State, b: State)
    requires SameCore(a, b)
    ensures SameCore(FetchByte(a).0, FetchByte(b).0) && FetchByte(a).1 == FetchByte(b).1
  {
  }

  lemma AddressOnCore(a: State, b: State, v: byte)
    requires SameCore(a, b)
    ensures SameCore(VarAddress(a, v, true).0, VarAddress(b, v, true).0)
    ensures VarAddress(a, v, true).1 == VarAddress(b, v, true).1
  {
  }

  lemma PutWordOnCore(a: State, b: State, at: Addr, val: word)
    requires SameCore(a, b)
    ensures SameCore(PutWord(a, at, val), PutWord(b, at, val))
  {
  }

  lemma WriteVarOnCore(a: State, b: State, v: byte, val: word)
    requires SameCore(a, b)
    ensures SameCore(WriteVar(a, v, val), WriteVar(b, v, val))
  {
    var (a1, at) := VarAddress(a, v, true);
    var (b1, bt) := VarAddress(b, v, true);
    AddressOnCore(a, b, v);
    PutWordOnCore(a1, b1, at, val);
  }

  lemma ReturnOnCore(a: State, b: State, val: word)
    requires SameCore(a, b)
    ensures SameCore(DoReturn(a, val), DoReturn(b, val))
  {
    if a.status.Running? && HEADER_CELLS <= a.bp && a.stack[a.bp - 2] <= STACK_CELLS {
      WriteVarOnCore(Leave(a), Leave(b), Lo(a.stack[a.bp - 5]), val);
    }
  }

  lemma FetchBranchOnCore(a: State, b: State)
    requires SameCore(a, b)
    ensures SameCore(FetchBranch(a).0, FetchBranch(b).0)
    ensures FetchBranch(a).1 == FetchBranch(b).1 && FetchBranch(a).2 == FetchBranch(b).2
  {
    FetchByteOnCore(a, b);
    FetchByteOnCore(FetchByte(a).0, FetchByte(b).0);
  }

  lemma BranchOnCore(a: State, b: State, truth: bool)
    requires SameCore(a, b)
    ensures SameCore(DoBranch(a, truth), DoBranch(b, truth))
  {
    var (a1, branch, byte2) := FetchBranch(a);
    var b1 := FetchBranch(b).0;
    FetchBranchOnCore(a, b);
    if a1.status.Running? && truth == (branch >= 0x80) {
      var offset := BranchOffset(branch, byte2);
      if offset == 0 {
        ReturnOnCore(a1, b1, 0);
      } else if offset == 1 {
        ReturnOnCore(a1, b1, 1);
      }
    }
  }

  /** Header, size of the story and save file are the same. */
  ghost predicate KeepsFile(s: State, t: State) {
    t.hdr == s.hdr && |t.story| == |s.story| && t.disk == s.disk
  }

  lemma ReturnKeepsFile(s: State, val: word)
    ensures KeepsFile(s, DoReturn(s, val))
  {
  }

  lemma BranchKeepsFile(s: State, truth: bool)
    ensures KeepsFile(s, DoBranch(s, truth))
  {
    var s1 := FetchBranch(s).0;
    ReturnKeepsFile(s1, 0);
    ReturnKeepsFile(s1, 1);
  }

  lemma CallKeepsFile(s: State)
    ensures KeepsFile(s, OpCall(s))
  {
  }

  /** The next instruction is `save`. */
  ghost predicate Saves(s: State, env: Env) {
    var (s1, op) := Fetched(s);
    Work(s1, op, env).1.Save?
  }

  /** No instruction but `save` writes the save file. */
  lemma StepKeepsFile(s: State, env: Env)
    requires !Saves(s, env)
    ensures KeepsFile(s, Step(s, env))
  {
    var (s1, op) := Fetched(s);
    var (c, next) := Work(s1, op, env);
    match next
    case Continue =>
    case Branch(truth) => BranchKeepsFile(c, truth);
    case Return(val) => ReturnKeepsFile(c, val);
    case Call => CallKeepsFile(c);
    case Restore =>
      assert KeepsFile(c, RestoreGame(c));
      BranchKeepsFile(RestoreGame(c), true);
  }

  ghost predicate WithoutSave(s: State, envs: seq<Env>)
    decreases |envs|
  {
    envs != [] ==> WithoutSave(s, envs[..|envs| - 1]) && !Saves(Run(s, envs[..|envs| - 1]), envs[|envs| - 1])
  }

  lemma {:induction false} RunKeepsFile(s: State, envs: seq<Env>)
    requires WithoutSave(s, envs)
    ensures KeepsFile(s, Run(s, envs))
    decreases |envs|
  {
    if envs != [] {
      RunKeepsFile(s, envs[..|envs| - 1]);
      StepKeepsFile(Run(s, envs[..|envs| - 1]), envs[|envs| - 1]);
    }
  }

  /** The save file `s` writes. */
  ghost function Snapshot(s: State): SaveFile
    requires 0 <= s.pc && s.hdr.staticMem <= |s.story|
  {
    SaveFile(s.story[..s.hdr.staticMem], s.pc, s.sp, s.stack, s.bp)
  }

  /** Reading a snapshot back gives the state it was taken of, as long as the static memory is the same. */
  lemma RestoreUndoes(c: State, q: State)
    requires c.status.Running? && q.status.Running? && 0 <= c.pc && 0 < c.hdr.staticMem <= |c.story|
    requires q.hdr == c.hdr && |q.story| == |c.story| && q.disk == Some(Snapshot(c))
    requires q.story[c.hdr.staticMem..] == c.story[c.hdr.staticMem..]
    ensures SameCore(RestoreGame(q), c)
  {
    assert c.story == c.story[..c.hdr.staticMem] + c.story[c.hdr.staticMem..];
  }

  /** Fetching a `save` or `restore` only moves past the opcode. */
  lemma FetchedPlain(s: State)
    requires Fetched(s).0.status.Running? && 181 <= Fetched(s).1 <= 182
    ensures s.status.Running? && 0 <= s.pc && Fetched(s).0 == s.(pc := s.pc + 1, count := 0)
  {
  }

  /** What a successful `save` does before it branches. */
  lemma SaveStep(s: State, env: Env, c: State)
    requires Saves(s, env) && env.save.Written? && 0 < s.hdr.staticMem <= |s.story| && c == Fetched(s).0
    ensures c.status.Running? && s.status.Running? && 0 <= s.pc && c == s.(pc := s.pc + 1, count := 0)
    ensures Step(s, env) == DoBranch(c.(disk := Some(Snapshot(c))), true)
  {
    FetchedPlain(s);
    assert SaveGame(c, env.save) == (c.(disk := Some(Snapshot(c))), true);
  }

  /** And a `restore`. */
  lemma RestoreStep(s: State, env: Env, c: State)
    requires Restores(s, env) && c == Fetched(s).0
    ensures c.status.Running? && s.status.Running? && 0 <= s.pc && c == s.(pc := s.pc + 1, count := 0)
    ensures Step(s, env) == DoBranch(RestoreGame(c), true)
  {
    FetchedPlain(s);
  }

  /** After a successful `save`, any run that saves nothing else and leaves static memory alone,
      and then a `restore`: the machine stands where the `save` itself went on, with the same
      story, stack, pc, sp and bp. */
  lemma SaveThenRestore(s: State, env: Env, envs: seq<Env>, env': Env)
    requires Saves(s, env) && env.save.Written? && 0 < s.hdr.staticMem <= |s.story|
    requires WithoutSave(Step(s, env), envs)
    requires var r := Run(Step(s, env), envs);
      Restores(r, env') && |r.story| == |s.story| && r.story[s.hdr.staticMem..] == s.story[s.hdr.staticMem..]
    ensures SameCore(Step(Run(Step(s, env), envs), env'), Step(s, env))
  {
    var r := Run(Step(s, env), envs);
    var c, q := Fetched(s).0, Fetched(r).0;
    SaveStep(s, env, c);
    RestoreStep(r, env', q);
    var c1 := c.(disk := Some(Snapshot(c)));
    BranchKeepsFile(c1, true);
    RunKeepsFile(Step(s, env), envs);
    RestoreUndoes(c, q);
    BranchOnCore(RestoreGame(q), c1, true);
  }
}
