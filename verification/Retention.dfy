/** What a clean retention query promises about every run of the register entry. */
module Retention {
  import opened Support
  import opened ForeignIr
  import opened UseIndex
  import opened Dataflow
  import opened Semantics
  import opened Invariants
  import opened CopyOrder
  import opened ForeignFacts

  /** What one use of an alias says about retention. */
  datatype UseVerdict = Quiet | Retains(slot: SlotId) | Escapes(reason: BoundaryReason)

  predicate IsDebugCallee(callee: Operand) {
    callee.Global? && "llvm.dbg." <= callee.symbol
  }

  function JudgeUse(code: Code, t: Tables, inst: Inst, alias: string, callback: nat): UseVerdict {
    match inst.kind
    case Store(value, dest) =>
      if value != Local(alias) then Quiet
      else (match t.PointerSlot(code, dest)
            case Some(slot) => if t.IsCallerOwned(dest) then Retains(slot) else Escapes(SlotNotProvenCallerOwned)
            case None =>
              if dest.Local? && dest.name in code.spills then Quiet else Escapes(StoreToUnresolvedPointer))
    case Load(_) => Quiet
    case Cast(_) => Quiet
    case Compare(_) => Quiet
    case Gep(_, _, _) => Escapes(UsedByUnmodelledInstruction)
    case Call(callee, args) =>
      if callee == Local(alias) || IsDebugCallee(callee) then Quiet
      else if t.OriginOf(callee) == Param(callback) && Local(alias) in args then Quiet
      else Escapes(EscapesToUnknownCallee)
    case _ => Escapes(UsedByUnmodelledInstruction)
  }

  // ---- What the judgement of a use means ----

  /** The instruction stores the alias itself to a resolved slot of the caller's. */
  ghost predicate RetainsAlias(code: Code, inst: Inst, alias: string, slot: SlotId) {
    && inst.kind.Store? && inst.kind.value == Local(alias)
    && Solved(code).PointerSlot(code, inst.kind.dest) == Some(slot) && Solved(code).IsCallerOwned(inst.kind.dest)
  }

  /** The alias goes to a spill cell, is only looked at, is called, or is handed to a debug marker or to the callback. */
  ghost predicate HarmlessUse(code: Code, inst: Inst, alias: string, callback: nat) {
    match inst.kind
    case Store(value, dest) =>
      value == Local(alias) ==> dest.Local? && dest.name in code.spills && Solved(code).PointerSlot(code, dest).None?
    case Load(_) => true
    case Cast(_) => true
    case Compare(_) => true
    case Call(callee, args) =>
      || callee == Local(alias) || IsDebugMarker(callee)
      || (Solved(code).OriginOf(callee) == Param(callback) && Local(alias) in args)
    case _ => false
  }

  /** What each reason for an escape says about the use. */
  ghost predicate EscapesFor(code: Code, inst: Inst, alias: string, callback: nat, reason: BoundaryReason) {
    && !HarmlessUse(code, inst, alias, callback)
    && match reason
       case SlotNotProvenCallerOwned =>
         inst.kind.Store? && Solved(code).PointerSlot(code, inst.kind.dest).Some? && !Solved(code).IsCallerOwned(inst.kind.dest)
       case StoreToUnresolvedPointer => inst.kind.Store? && Solved(code).PointerSlot(code, inst.kind.dest).None?
       case EscapesToUnknownCallee => inst.kind.Call?
       case UsedByUnmodelledInstruction => !inst.kind.Store? && !inst.kind.Call?
       case _ => false
  }

  /** Every use is retaining, harmless or escaping for one reason, exactly as these say. */
  lemma JudgeUseExact(code: Code, inst: Inst, alias: string, callback: nat)
    ensures
      var verdict := JudgeUse(code, Solved(code), inst, alias, callback);
      && (verdict.Quiet? <==> HarmlessUse(code, inst, alias, callback))
      && (forall slot :: verdict == Retains(slot) <==> RetainsAlias(code, inst, alias, slot))
      && (forall reason :: verdict == Escapes(reason) <==> EscapesFor(code, inst, alias, callback, reason))
  {
  }

  /** Every use of every alias of the parameter is harmless. */
  ghost predicate QuietParam(code: Code, callback: nat, index: nat) {
    forall alias, inst ::
      alias in Solved(code).ParamAliases(index) && inst in code.insts && Mentions(inst, alias) ==>
        HarmlessUse(code, inst, alias, callback)
  }

  /** No address computation takes an alias of the parameter as an index. */
  ghost predicate NoAliasIndex(code: Code, index: nat) {
    forall alias, inst :: alias in Solved(code).ParamAliases(index) && inst in code.insts && inst.kind.Gep? ==>
      ("%" + alias) !in inst.kind.indices
  }

  /** The argument is held only by its aliases and by the spill cells they were stored to. */
  ghost predicate Confined(code: Code, s: State, index: nat) {
    && (forall n :: Register(s, n) == Arg(index) ==> n in Solved(code).ParamAliases(index))
    && (forall cell :: cell in s.memory && s.memory[cell] == Arg(index) ==>
          cell.owner in code.spills && Solved(code).OriginOf(code.spills[cell.owner]) == Param(index))
  }

  ghost predicate Tracked(code: Code, callback: nat, index: nat) {
    Sound(code) && QuietParam(code, callback, index) && NoAliasIndex(code, index)
  }

  /** An operand that evaluates to the argument is an alias, and its use is quiet. */
  lemma ArgOperand(code: Code, s: State, inst: Inst, operand: Operand, callback: nat, index: nat)
    requires Tracked(code, callback, index) && InCode(code, inst) && Confined(code, s, index)
    requires operand in OperandsOf(inst) && Eval(s, operand) == Arg(index)
    ensures operand.Local? && operand.name in Solved(code).ParamAliases(index)
    ensures HarmlessUse(code, inst, operand.name, callback)
  {
    assert Mentions(inst, operand.name);
  }

  predicate PassesNothingOn(kind: InstKind) {
    !kind.Store? && !kind.Load? && !kind.Cast? && !kind.Compare? && !kind.Call?
  }

  /** Instructions that would be reported as escapes never see the argument. */
  lemma NotAnOperand(code: Code, s: State, inst: Inst, callback: nat, index: nat)
    requires Tracked(code, callback, index) && InCode(code, inst) && Confined(code, s, index)
    requires PassesNothingOn(inst.kind)
    ensures Arg(index) !in ValuesOf(s, OperandsOf(inst))
  {
    forall operand | operand in OperandsOf(inst) ensures Eval(s, operand) != Arg(index) {
      if Eval(s, operand) == Arg(index) { ArgOperand(code, s, inst, operand, callback, index); }
    }
  }

  lemma NotAnIndex(code: Code, s: State, inst: Inst, index: nat)
    requires NoAliasIndex(code, index) && InCode(code, inst) && Confined(code, s, index) && inst.kind.Gep?
    ensures Arg(index) !in ValuesOf(s, IndexOperands(inst.kind.indices))
  {
    forall operand | operand in IndexOperands(inst.kind.indices) ensures Eval(s, operand) != Arg(index) {
      assert Eval(s, operand) == Register(s, operand.name);
    }
  }

  lemma SuppliesNoArg(code: Code, s: State, inst: Inst, callback: nat, index: nat)
    requires Tracked(code, callback, index) && InCode(code, inst) && Confined(code, s, index)
    ensures Arg(index) !in Supplied(s, inst)
  {
    if inst.kind.Gep? {
      NotAnOperand(code, s, inst, callback, index);
      assert inst.kind.base in OperandsOf(inst);
      NotAnIndex(code, s, inst, index);
    } else if PassesNothingOn(inst.kind) {
      NotAnOperand(code, s, inst, callback, index);
    }
  }

  lemma AliasIffOrigin(code: Code, index: nat, name: string)
    ensures name in Solved(code).ParamAliases(index) <==> Solved(code).OriginOf(Local(name)) == Param(index)
  {
  }

  lemma CopyOfArg(code: Code, inst: Inst, index: nat)
    requires Sound(code) && InCode(code, inst) && inst.result.Some? && Copied(code, inst).Some?
    requires Solved(code).OriginOf(Copied(code, inst).value) == Param(index)
    ensures inst.result.value in Solved(code).ParamAliases(index)
  {
    var j :| 0 <= j < |code.insts| && code.insts[j] == inst;
    RootedCopies(code, Param(index), j);
    AliasIffOrigin(code, index, inst.result.value);
  }

  lemma LoadedArg(code: Code, s: State, inst: Inst, index: nat, cell: Cell)
    requires Isolated(code, s) && Confined(code, s, index)
    requires inst.kind.Load? && Eval(s, inst.kind.src) == Address(cell) && Content(s, cell) == Arg(index)
    ensures Copied(code, inst).Some? && Solved(code).OriginOf(Copied(code, inst).value) == Param(index)
  {
    SpillRegister(code, s, inst.kind.src);
  }

  lemma SpillRegister(code: Code, s: State, operand: Operand)
    requires Isolated(code, s) && SpillAddress(code, Eval(s, operand))
    ensures operand == Local(Eval(s, operand).cell.owner)
  {
  }

  lemma ResultConfined(code: Code, s: State, inst: Inst, c: Choice, index: nat)
    requires Sound(code) && InCode(code, inst) && Isolated(code, s) && Confined(code, s, index)
    requires Arg(index) !in Supplied(s, inst)
    requires TokenFreeStep(s, inst, c, index) && inst.result.Some? && Result(s, inst, c) == Arg(index)
    ensures inst.result.value in Solved(code).ParamAliases(index)
  {
    match inst.kind
    case Alloca =>
    case Cast(src) => CopyOfArg(code, inst, index);
    case Load(src) =>
      LoadedArg(code, s, inst, index, Eval(s, src).cell);
      CopyOfArg(code, inst, index);
    case _ =>
  }

  lemma StoredArg(code: Code, s: State, inst: Inst, callback: nat, index: nat)
    requires Tracked(code, callback, index) && InCode(code, inst) && Isolated(code, s) && Confined(code, s, index)
    requires inst.kind.Store? && Eval(s, inst.kind.value) == Arg(index)
    ensures inst.kind.dest.Local? && inst.kind.dest.name in code.spills
    ensures code.spills[inst.kind.dest.name] == inst.kind.value
    ensures Solved(code).OriginOf(inst.kind.value) == Param(index)
    ensures Eval(s, inst.kind.dest).Uninit?
      || (Eval(s, inst.kind.dest).Address? && Eval(s, inst.kind.dest).cell.owner == inst.kind.dest.name)
  {
    assert inst.kind.value in OperandsOf(inst);
    ArgOperand(code, s, inst, inst.kind.value, callback, index);
    AliasIffOrigin(code, index, inst.kind.value.name);
    SpilledByStore(code, inst, inst.kind.dest.name);
  }

  lemma SpilledByStore(code: Code, inst: Inst, a: string)
    requires code.spills == SpillMap(code.insts) && InCode(code, inst) && a in code.spills && StoresTo(inst, a)
    ensures code.spills[a] == inst.kind.value
  {
    var j :| 0 <= j < |code.insts| && code.insts[j] == inst;
    StoresSpillValue(code.insts, a, j);
  }

  lemma MemoryConfined(code: Code, s: State, inst: Inst, c: Choice, callback: nat, index: nat, cell: Cell)
    requires Tracked(code, callback, index) && InCode(code, inst) && Isolated(code, s) && Confined(code, s, index)
    requires TokenFreeStep(s, inst, c, index)
    requires cell in NewMemory(s, inst, c) && NewMemory(s, inst, c)[cell] == Arg(index)
    ensures cell.owner in code.spills && Solved(code).OriginOf(code.spills[cell.owner]) == Param(index)
  {
    SuppliesNoArg(code, s, inst, callback, index);
    match inst.kind
    case Alloca =>
    case Store(value, dest) =>
      if Eval(s, dest) == Address(cell) { StoredArg(code, s, inst, callback, index); }
    case _ =>
  }

  lemma ExecuteConfined(code: Code, s: State, inst: Inst, c: Choice, callback: nat, index: nat)
    requires Tracked(code, callback, index) && InCode(code, inst) && Isolated(code, s) && Confined(code, s, index)
    requires TokenFreeStep(s, inst, c, index)
    ensures Confined(code, Execute(s, inst, c), index)
  {
    var t := Execute(s, inst, c);
    SuppliesNoArg(code, s, inst, callback, index);
    forall n | Register(t, n) == Arg(index) ensures n in Solved(code).ParamAliases(index) {
      if inst.result == Some(n) {
        ResultConfined(code, s, inst, c, index);
      } else {
        assert Register(t, n) == Register(s, n);
      }
    }
    forall cell | cell in t.memory && t.memory[cell] == Arg(index)
      ensures cell.owner in code.spills && Solved(code).OriginOf(code.spills[cell.owner]) == Param(index)
    {
      MemoryConfined(code, s, inst, c, callback, index, cell);
    }
  }

  /** What an instruction may do with the tracked argument, as far as one state shows. */
  ghost predicate KeepsOrUnwritten(code: Code, s: State, inst: Inst, callback: nat, index: nat) {
    match inst.kind
    case Store(value, dest) =>
      Eval(s, value) == Arg(index) ==>
        dest.Local? && dest.name in code.spills
        && (Eval(s, dest).Uninit? || (Eval(s, dest).Address? && Eval(s, dest).cell.owner == dest.name))
    case Call(callee, args) =>
      Arg(index) in ValuesOf(s, args) ==>
        IsDebugMarker(callee)
        || (Solved(code).OriginOf(callee) in {Param(callback), Param(index)}
            && Eval(s, callee) in {Arg(callback), Arg(index), Uninit})
    case Cast(_) => true
    case Load(_) => true
    case Compare(_) => true
    case Gep(base, _, indices) => Eval(s, base) != Arg(index) && Arg(index) !in ValuesOf(s, IndexOperands(indices))
    case Alloca => true
    case _ => Arg(index) !in ValuesOf(s, LocalsInText(inst.text))
  }

  /**
   * What an instruction may do with the tracked argument. A store to a cell not allocated yet, or a call through a register
   * not written yet, can only happen where some walk reaches the instruction before the allocation or the definition.
   */
  ghost predicate KeepsToSpills(f: Function, code: Code, s: State, inst: Inst, callback: nat, index: nat) {
    && KeepsOrUnwritten(code, s, inst, callback, index)
    && (inst.kind.Store? && Eval(s, inst.kind.value) == Arg(index) && Eval(s, inst.kind.dest).Uninit? ==>
          !WrittenBefore(f, inst, inst.kind.dest.name))
    && (inst.kind.Call? && Arg(index) in ValuesOf(s, inst.kind.args) && !IsDebugMarker(inst.kind.callee)
        && Eval(s, inst.kind.callee).Uninit? ==>
          !Ordered(f, code, inst, inst.kind.callee))
  }

  lemma CallKeeps(code: Code, s: State, inst: Inst, callback: nat, index: nat)
    requires Tracked(code, callback, index) && InCode(code, inst)
    requires Holds(code, s) && Confined(code, s, index) && inst.kind.Call?
    ensures KeepsOrUnwritten(code, s, inst, callback, index)
  {
    if Arg(index) in ValuesOf(s, inst.kind.args) {
      var operand :| operand in inst.kind.args && Eval(s, operand) == Arg(index);
      assert operand in OperandsOf(inst);
      ArgOperand(code, s, inst, operand, callback, index);
      EvalMatches(code, s, inst.kind.callee);
    }
  }

  lemma QuietKeeps(code: Code, s: State, inst: Inst, callback: nat, index: nat)
    requires Tracked(code, callback, index) && InCode(code, inst)
    requires Holds(code, s) && Confined(code, s, index)
    ensures KeepsOrUnwritten(code, s, inst, callback, index)
  {
    match inst.kind
    case Store(value, _) =>
      if Eval(s, value) == Arg(index) { StoredArg(code, s, inst, callback, index); }
    case Call(_, _) => CallKeeps(code, s, inst, callback, index);
    case Cast(_) =>
    case Load(_) =>
    case Compare(_) =>
    case Gep(base, _, _) =>
      NotAnOperand(code, s, inst, callback, index);
      NotAnIndex(code, s, inst, index);
      assert base in OperandsOf(inst);
    case _ => NotAnOperand(code, s, inst, callback, index);
  }

  lemma InitialConfined(m: IrModule, f: Function, index: nat)
    requires SsaForm(m, f)
    ensures Confined(CodeOf(m, f), Initial(f), index)
  {
    forall n | Register(Initial(f), n) == Arg(index)
      ensures n in Solved(CodeOf(m, f)).ParamAliases(index)
    {
      InitialRegistersExact(f.params, n);
      InitialOriginsExact(f.params);
      RootedParam(CodeOf(m, f), index);
      AliasIffOrigin(CodeOf(m, f), index, n);
    }
  }

  lemma StepConfined(m: IrModule, f: Function, s: State, c: Choice, t: State, callback: nat, index: nat)
    requires Tracked(CodeOf(m, f), callback, index) && Holds(CodeOf(m, f), s) && Confined(CodeOf(m, f), s, index)
    requires Step(f, s, c, t) && (HasInst(f, s) ==> TokenFreeStep(s, CurrentInst(f, s), c, index))
    ensures Confined(CodeOf(m, f), t, index)
  {
    var code := CodeOf(m, f);
    if HasInst(f, s) {
      var j := CurrentInstListed(f, s);
      ExecuteConfined(code, s, CurrentInst(f, s), c, callback, index);
      ConfinedAnywhere(code, Execute(s, CurrentInst(f, s), c), t, index);
    } else {
      ConfinedAnywhere(code, s, t, index);
    }
  }

  lemma ConfinedAnywhere(code: Code, s: State, t: State, index: nat)
    requires t == s.(block := t.block, index := t.index) && Confined(code, s, index)
    ensures Confined(code, t, index)
  {
    assert forall n :: Register(t, n) == Register(s, n);
  }

  lemma {:induction false} PrefixConfined(m: IrModule, f: Function, r: Run, k: nat, callback: nat, index: nat)
    requires SsaForm(m, f) && Tracked(CodeOf(m, f), callback, index)
    requires k < |r.states| && k <= |r.choices| && RunsTo(f, r, k) && TokenFreeTo(f, r, k, index)
    ensures Confined(CodeOf(m, f), r.states[k], index)
  {
    if k == 0 {
      InitialConfined(m, f, index);
    } else {
      PrefixConfined(m, f, r, k - 1, callback, index);
      PrefixHolds(m, f, r, k - 1);
      StepConfined(m, f, r.states[k - 1], r.choices[k - 1], r.states[k], callback, index);
    }
  }

  lemma RunKeeps(m: IrModule, f: Function, r: Run, k: nat, inst: Inst, callback: nat, index: nat)
    requires SsaForm(m, f) && IsRun(f, r) && ExecutedAt(f, r, k, inst)
    requires KeepsOrUnwritten(CodeOf(m, f), r.states[k], inst, callback, index)
    ensures KeepsToSpills(f, CodeOf(m, f), r.states[k], inst, callback, index)
  {
    match inst.kind
    case Store(value, dest) =>
      if Eval(r.states[k], value) == Arg(index) && WrittenBefore(f, inst, dest.name) {
        AddressIsWritten(m, f, r, k, inst, dest.name);
      }
    case Call(callee, args) =>
      if Arg(index) in ValuesOf(r.states[k], args) && !IsDebugMarker(callee) {
        RunReads(m, f, r, k, inst, callee);
      }
    case _ =>
  }

  /**
   * A quiet parameter is not retained in any run: it only ever sits in its aliases and in spill cells,
   * is stored nowhere else, and is seen by no call but debug markers and the callback itself.
   */
  lemma NoRetainSound(m: IrModule, f: Function, r: Run, k: nat, callback: nat, index: nat)
    requires SsaForm(m, f) && QuietParam(CodeOf(m, f), callback, index) && NoAliasIndex(CodeOf(m, f), index)
    requires IsRun(f, r) && TokenFree(f, r, index) && k < |r.states|
    ensures Confined(CodeOf(m, f), r.states[k], index)
    ensures HasInst(f, r.states[k]) ==>
      KeepsToSpills(f, CodeOf(m, f), r.states[k], CurrentInst(f, r.states[k]), callback, index)
  {
    RunPrefix(f, r, k, |r.choices|);
    TokenFreePrefix(f, r, k, |r.choices|, index);
    PrefixConfined(m, f, r, k, callback, index);
    PrefixHolds(m, f, r, k);
    if HasInst(f, r.states[k]) {
      var inst := CurrentInst(f, r.states[k]);
      var j := CurrentInstListed(f, r.states[k]);
      QuietKeeps(CodeOf(m, f), r.states[k], inst, callback, index);
      RunKeeps(m, f, r, k, inst, callback, index);
    }
  }
}
