/** What every step of a run keeps: spill cells stay private, and origins tell the truth about values. */
module Invariants {
  import opened Support
  import opened ForeignIr
  import opened UseIndex
  import opened Dataflow
  import opened Semantics

  // ---- Spill cells stay private ----

  ghost predicate SpillAddress(code: Code, v: Value) {
    v.Address? && v.cell.owner in code.spills
  }

  /** Only a spill cell's own register ever holds its address. */
  ghost predicate Isolated(code: Code, s: State) {
    && (forall n :: n in s.registers && SpillAddress(code, s.registers[n]) ==> n == s.registers[n].cell.owner)
    && (forall cell :: cell in s.memory ==> !SpillAddress(code, s.memory[cell]))
    && (forall cell :: cell in s.exposed ==> cell.owner !in code.spills)
    && (forall a :: a in code.spills && a in s.registers ==> s.registers[a].Address? && s.registers[a].cell.owner == a)
  }

  ghost predicate InCode(code: Code, inst: Inst) {
    inst in code.insts
  }

  /** The single-assignment facts of one function, as the steps use them. */
  ghost predicate Sound(code: Code) {
    && SingleAssignment(code) && IntegerIndices(code.insts) && code.spills == SpillMap(code.insts)
  }

  ghost predicate PrivateUse(code: Code, inst: Inst, a: string)
    requires a in code.spills
  {
    LoadsFrom(inst, a) || IsIntrinsicCall(inst)
    || (inst.kind == Store(code.spills[a], Local(a)) && code.spills[a] != Local(a))
  }

  /** An operand that evaluates to a spill address is the spill register, in one of its three private uses. */
  lemma PrivateOperand(code: Code, s: State, inst: Inst, operand: Operand)
    requires Sound(code) && InCode(code, inst) && Isolated(code, s)
    requires operand in OperandsOf(inst) && SpillAddress(code, Eval(s, operand))
    ensures operand == Local(Eval(s, operand).cell.owner)
    ensures PrivateUse(code, inst, Eval(s, operand).cell.owner)
  {
    var a := Eval(s, operand).cell.owner;
    var j :| 0 <= j < |code.insts| && code.insts[j] == inst;
    SpillFacts(code.insts, a, j);
  }

  lemma SpillIsAllocated(code: Code, a: string) returns (j: nat)
    requires Sound(code) && a in code.spills
    ensures j < |code.insts| && Allocates(code.insts[j], a)
  {
    j :| 0 <= j < |code.insts| && Allocates(code.insts[j], a);
  }

  lemma SpillNotIndex(code: Code, inst: Inst, a: string)
    requires Sound(code) && InCode(code, inst) && inst.kind.Gep? && a in code.spills
    ensures ("%" + a) !in inst.kind.indices
  {
    var j := SpillIsAllocated(code, a);
    var k :| 0 <= k < |code.insts| && code.insts[k] == inst;
  }

  lemma IndexNotSpill(code: Code, s: State, inst: Inst, operand: Operand)
    requires Sound(code) && InCode(code, inst) && Isolated(code, s) && inst.kind.Gep?
    requires operand in IndexOperands(inst.kind.indices)
    ensures !SpillAddress(code, Eval(s, operand))
  {
    if operand.name in code.spills { SpillNotIndex(code, inst, operand.name); }
  }

  lemma NothingPrivateSupplied(code: Code, s: State, inst: Inst, v: Value)
    requires Sound(code) && InCode(code, inst) && Isolated(code, s)
    requires v in Supplied(s, inst)
    ensures !SpillAddress(code, v)
  {
    if inst.kind.Gep? {
      if v == Eval(s, inst.kind.base) {
        if SpillAddress(code, v) { PrivateOperand(code, s, inst, inst.kind.base); }
      } else {
        var operand :| operand in IndexOperands(inst.kind.indices) && v == Eval(s, operand);
        IndexNotSpill(code, s, inst, operand);
      }
    } else {
      var operand :| operand in LocalsInText(inst.text) && v == Eval(s, operand);
      assert operand in OperandsOf(inst);
      if SpillAddress(code, v) { PrivateOperand(code, s, inst, operand); }
    }
  }

  lemma NothingPrivateLeaks(code: Code, s: State, inst: Inst, cell: Cell)
    requires Sound(code) && InCode(code, inst) && Isolated(code, s)
    requires cell in Leaks(s, inst)
    ensures cell.owner !in code.spills
  {
    if inst.kind.Store? {
      if SpillAddress(code, Address(cell)) { PrivateOperand(code, s, inst, inst.kind.value); }
    } else {
      if inst.kind.Call? { MarkersAreIntrinsics(inst); }
      var operand :| operand in OperandsOf(inst) && Address(cell) == Eval(s, operand);
      if SpillAddress(code, Address(cell)) { PrivateOperand(code, s, inst, operand); }
    }
  }

  lemma NothingPrivateChosen(code: Code, s: State, inst: Inst, v: Value)
    requires Sound(code) && InCode(code, inst) && Isolated(code, s) && Nameable(s, inst, v)
    ensures !SpillAddress(code, v)
  {
    if v in Supplied(s, inst) {
      NothingPrivateSupplied(code, s, inst, v);
    } else if v.Address? && v.cell in Leaks(s, inst) {
      NothingPrivateLeaks(code, s, inst, v.cell);
    }
  }

  /** What the rules of a step leave open about spill cells: nothing. */
  ghost predicate Cautious(code: Code, s: State, inst: Inst, c: Choice) {
    && !SpillAddress(code, c.value)
    && (forall cell :: cell in c.writes ==> cell.owner !in code.spills && !SpillAddress(code, c.writes[cell]))
    && (forall cell :: cell in Leaks(s, inst) ==> cell.owner !in code.spills)
    && (forall operand :: operand in OperandsOf(inst) && SpillAddress(code, Eval(s, operand)) ==>
          operand == Local(Eval(s, operand).cell.owner) && PrivateUse(code, inst, Eval(s, operand).cell.owner))
    && (inst.result.Some? && inst.result.value in code.spills ==> inst.kind.Alloca?)
  }

  lemma StepIsCautious(code: Code, s: State, inst: Inst, c: Choice)
    requires Sound(code) && InCode(code, inst) && Isolated(code, s) && AllowedChoice(s, inst, c)
    ensures Cautious(code, s, inst, c)
  {
    NothingPrivateChosen(code, s, inst, c.value);
    forall cell | cell in Leaks(s, inst) ensures cell.owner !in code.spills {
      NothingPrivateLeaks(code, s, inst, cell);
    }
    forall cell | cell in c.writes ensures cell.owner !in code.spills && !SpillAddress(code, c.writes[cell]) {
      NothingPrivateChosen(code, s, inst, c.writes[cell]);
    }
    forall operand | operand in OperandsOf(inst) && SpillAddress(code, Eval(s, operand))
      ensures operand == Local(Eval(s, operand).cell.owner) && PrivateUse(code, inst, Eval(s, operand).cell.owner)
    {
      PrivateOperand(code, s, inst, operand);
    }
    if inst.result.Some? && inst.result.value in code.spills {
      DefinesSpill(code, inst, inst.result.value);
    }
  }

  lemma ResultPrivate(code: Code, s: State, inst: Inst, c: Choice)
    requires Isolated(code, s) && Cautious(code, s, inst, c)
    ensures SpillAddress(code, Result(s, inst, c)) ==>
      inst.kind.Alloca? && Result(s, inst, c).cell.owner == if inst.result.Some? then inst.result.value else ""
  {
    match inst.kind
    case Alloca =>
    case Cast(src) => assert src in OperandsOf(inst);
    case Load(src) =>
    case _ =>
  }

  lemma MemoryPrivate(code: Code, s: State, inst: Inst, c: Choice, cell: Cell)
    requires Isolated(code, s) && Cautious(code, s, inst, c)
    requires cell in NewMemory(s, inst, c)
    ensures !SpillAddress(code, NewMemory(s, inst, c)[cell])
  {
    match inst.kind
    case Alloca =>
    case Store(value, dest) => assert value in OperandsOf(inst);
    case _ =>
  }

  lemma DefinesSpill(code: Code, inst: Inst, a: string)
    requires Sound(code) && InCode(code, inst) && a in code.spills && inst.result == Some(a)
    ensures inst.kind.Alloca?
  {
    var j := SpillIsAllocated(code, a);
    var k :| 0 <= k < |code.insts| && code.insts[k] == inst;
    UniqueDefinition(code, j, k);
  }

  lemma UniqueDefinition(code: Code, j: nat, k: nat)
    requires SingleAssignment(code) && j < |code.insts| && k < |code.insts|
    requires code.insts[j].result.Some? && code.insts[j].result == code.insts[k].result
    ensures j == k
  {
  }

  lemma ExecuteIsolated(code: Code, s: State, inst: Inst, c: Choice)
    requires Isolated(code, s) && Cautious(code, s, inst, c)
    ensures Isolated(code, Execute(s, inst, c))
  {
    var t := Execute(s, inst, c);
    ResultPrivate(code, s, inst, c);
    forall cell | cell in t.memory ensures !SpillAddress(code, t.memory[cell]) {
      MemoryPrivate(code, s, inst, c, cell);
    }
  }

  // ---- Origins tell the truth ----

  /** What a rooted origin promises about a run-time value. */
  ghost predicate Matches(v: Value, o: ValueOrigin) {
    v.Uninit? || ((o.Param? ==> v == Arg(o.index)) && (o.FromNull? ==> v == NullPointer))
  }

  ghost predicate RegistersTruthful(code: Code, s: State) {
    forall n :: Matches(Register(s, n), Solved(code).OriginOf(Local(n)))
  }

  ghost predicate CellsTruthful(code: Code, s: State) {
    forall cell: Cell :: cell.owner in code.spills ==>
      Matches(Content(s, cell), Solved(code).OriginOf(code.spills[cell.owner]))
  }

  ghost predicate Truthful(code: Code, s: State) {
    RegistersTruthful(code, s) && CellsTruthful(code, s)
  }

  lemma EvalMatches(code: Code, s: State, operand: Operand)
    requires Truthful(code, s)
    ensures Matches(Eval(s, operand), Solved(code).OriginOf(operand))
  {
  }

  /** A rooted result is copied from an operand with the same root. */
  lemma ResultOrigin(code: Code, inst: Inst)
    requires Sound(code) && InCode(code, inst) && inst.result.Some?
    requires IsRootedOrigin(Solved(code).OriginOf(Local(inst.result.value)))
    ensures Copied(code, inst).Some?
    ensures Solved(code).OriginOf(Copied(code, inst).value) == Solved(code).OriginOf(Local(inst.result.value))
  {
    var j :| 0 <= j < |code.insts| && code.insts[j] == inst;
    RootedCopies(code, Solved(code).OriginOf(Local(inst.result.value)), j);
  }

  lemma CopyMatches(code: Code, s: State, inst: Inst, c: Choice)
    requires Isolated(code, s) && Truthful(code, s) && Copied(code, inst).Some?
    ensures Matches(Result(s, inst, c), Solved(code).OriginOf(Copied(code, inst).value))
  {
    match inst.kind
    case Cast(src) => EvalMatches(code, s, src);
    case Load(src) => assert Register(s, src.name).Address? ==> Register(s, src.name).cell.owner == src.name;
  }

  lemma ResultMatches(code: Code, s: State, inst: Inst, c: Choice)
    requires Sound(code) && InCode(code, inst) && Isolated(code, s) && Truthful(code, s) && inst.result.Some?
    ensures Matches(Result(s, inst, c), Solved(code).OriginOf(Local(inst.result.value)))
  {
    if IsRootedOrigin(Solved(code).OriginOf(Local(inst.result.value))) {
      ResultOrigin(code, inst);
      CopyMatches(code, s, inst, c);
    }
  }

  lemma SpillContentMatches(code: Code, s: State, inst: Inst, c: Choice, cell: Cell)
    requires Isolated(code, s) && Truthful(code, s) && Cautious(code, s, inst, c)
    requires cell.owner in code.spills
    ensures Matches(Content(Execute(s, inst, c), cell), Solved(code).OriginOf(code.spills[cell.owner]))
  {
    assert Matches(Content(s, cell), Solved(code).OriginOf(code.spills[cell.owner]));
    match inst.kind
    case Alloca =>
    case Store(value, dest) =>
      if Eval(s, dest) == Address(cell) {
        assert dest in OperandsOf(inst) && SpillAddress(code, Eval(s, dest));
        EvalMatches(code, s, value);
      }
    case _ => assert cell !in c.writes;
  }

  lemma ExecuteRegisters(code: Code, s: State, inst: Inst, c: Choice)
    requires Sound(code) && InCode(code, inst) && Isolated(code, s) && Truthful(code, s)
    ensures RegistersTruthful(code, Execute(s, inst, c))
  {
    var t := Execute(s, inst, c);
    forall n ensures Matches(Register(t, n), Solved(code).OriginOf(Local(n))) {
      if inst.result == Some(n) {
        ResultMatches(code, s, inst, c);
      } else {
        assert Register(t, n) == Register(s, n);
      }
    }
  }

  lemma ExecuteCells(code: Code, s: State, inst: Inst, c: Choice)
    requires Isolated(code, s) && Truthful(code, s) && Cautious(code, s, inst, c)
    ensures CellsTruthful(code, Execute(s, inst, c))
  {
    forall cell: Cell | cell.owner in code.spills
      ensures Matches(Content(Execute(s, inst, c), cell), Solved(code).OriginOf(code.spills[cell.owner]))
    {
      SpillContentMatches(code, s, inst, c, cell);
    }
  }

  // ---- Whole runs ----

  /** What holds in every reachable state. */
  ghost predicate Holds(code: Code, s: State) {
    Isolated(code, s) && Truthful(code, s)
  }

  lemma ParamNotSpill(code: Code, name: string)
    requires Sound(code) && name in code.params
    ensures name !in code.spills
  {
    if name in code.spills {
      var j := SpillIsAllocated(code, name);
    }
  }

  lemma InitialRegister(m: IrModule, f: Function, n: string)
    requires SsaForm(m, f)
    ensures Matches(Register(Initial(f), n), Solved(CodeOf(m, f)).OriginOf(Local(n)))
    ensures n in Initial(f).registers ==> Initial(f).registers[n].Arg? && n !in CodeOf(m, f).spills
  {
    InitialRegistersExact(f.params, n);
    InitialOriginsExact(f.params);
    if n in Initial(f).registers {
      RootedParam(CodeOf(m, f), InitialOrigins(f.params)[n].index);
      ParamNotSpill(CodeOf(m, f), n);
    }
  }

  lemma InitialTruthful(m: IrModule, f: Function)
    requires SsaForm(m, f)
    ensures Truthful(CodeOf(m, f), Initial(f))
  {
    forall n ensures Matches(Register(Initial(f), n), Solved(CodeOf(m, f)).OriginOf(Local(n))) {
      InitialRegister(m, f, n);
    }
  }

  lemma InitialIsolated(m: IrModule, f: Function)
    requires SsaForm(m, f)
    ensures Isolated(CodeOf(m, f), Initial(f))
  {
    forall n | n in Initial(f).registers
      ensures Initial(f).registers[n].Arg? && n !in CodeOf(m, f).spills
    {
      InitialRegister(m, f, n);
    }
  }

  lemma InitialHolds(m: IrModule, f: Function)
    requires SsaForm(m, f)
    ensures Holds(CodeOf(m, f), Initial(f))
  {
    InitialTruthful(m, f);
    InitialIsolated(m, f);
  }

  lemma ExecuteHolds(code: Code, s: State, inst: Inst, c: Choice)
    requires Sound(code) && InCode(code, inst) && Holds(code, s) && AllowedChoice(s, inst, c)
    ensures Holds(code, Execute(s, inst, c))
  {
    StepIsCautious(code, s, inst, c);
    ExecuteIsolated(code, s, inst, c);
    ExecuteRegisters(code, s, inst, c);
    ExecuteCells(code, s, inst, c);
  }

  lemma SamePlaceSameData(code: Code, s: State, t: State)
    requires t == s.(block := t.block, index := t.index) && Holds(code, s)
    ensures Holds(code, t)
  {
    assert forall n :: Register(t, n) == Register(s, n);
    assert forall cell :: Content(t, cell) == Content(s, cell);
  }

  lemma StepHolds(m: IrModule, f: Function, s: State, c: Choice, t: State)
    requires SsaForm(m, f) && Holds(CodeOf(m, f), s) && Step(f, s, c, t)
    ensures Holds(CodeOf(m, f), t)
  {
    if HasInst(f, s) {
      var j := CurrentInstListed(f, s);
      ExecuteHolds(CodeOf(m, f), s, CurrentInst(f, s), c);
      SamePlaceSameData(CodeOf(m, f), Execute(s, CurrentInst(f, s), c), t);
    } else {
      SamePlaceSameData(CodeOf(m, f), s, t);
    }
  }

  lemma {:induction false} PrefixHolds(m: IrModule, f: Function, r: Run, k: nat)
    requires SsaForm(m, f) && k < |r.states| && k <= |r.choices| && RunsTo(f, r, k)
    ensures Holds(CodeOf(m, f), r.states[k])
  {
    if k == 0 {
      InitialHolds(m, f);
    } else {
      PrefixHolds(m, f, r, k - 1);
      StepHolds(m, f, r.states[k - 1], r.choices[k - 1], r.states[k]);
    }
  }

  /** In every reachable state spill cells are private and every rooted origin tells the truth. */
  lemma RunHolds(m: IrModule, f: Function, r: Run, k: nat)
    requires SsaForm(m, f) && IsRun(f, r) && k < |r.states|
    ensures Holds(CodeOf(m, f), r.states[k])
  {
    RunPrefix(f, r, k, |r.choices|);
    PrefixHolds(m, f, r, k);
  }

  /** At run time an alias of parameter i holds argument i, or nothing yet. */
  lemma AliasHoldsArgument(m: IrModule, f: Function, r: Run, k: nat, index: nat, name: string)
    requires SsaForm(m, f) && IsRun(f, r) && k < |r.states|
    requires name in Solved(CodeOf(m, f)).ParamAliases(index)
    ensures Register(r.states[k], name) in {Arg(index), Uninit}
  {
    RunHolds(m, f, r, k);
    assert Matches(Register(r.states[k], name), Solved(CodeOf(m, f)).OriginOf(Local(name)));
  }
}
