/** From the analysis of real functions to the verdict: what a verdict says about runs. */
module EndToEnd {
  import opened Support
  import opened ForeignIr
  import opened UseIndex
  import opened Dataflow
  import opened Semantics
  import opened ForeignFacts
  import opened Retention
  import opened CopyOrder
  import opened RunPaths
  import opened Queries
  import opened Compatibility

  /** Functions as a compiler emits them: single assignment, integer indices, terminators at block ends. */
  ghost predicate WellFormedModule(m: IrModule) {
    forall f :: f in m.functions ==> SsaForm(m, f) && WellPlaced(f)
  }

  /** In no run does a tracked argument leave its aliases and spill cells. */
  ghost predicate NeverRetained(m: IrModule, f: Function, roles: ForeignRoleMap) {
    forall index, r, k: nat ::
      index in TrackedIndices(roles) && IsRun(f, r) && TokenFree(f, r, index) && k < |r.states| ==>
        StaysPrivate(m, f, roles, index, r.states[k])
  }

  ghost predicate StaysPrivate(m: IrModule, f: Function, roles: ForeignRoleMap, index: nat, s: State) {
    && Confined(CodeOf(m, f), s, index)
    && (HasInst(f, s) ==> KeepsToSpills(f, CodeOf(m, f), s, CurrentInst(f, s), roles.callbackArgIndex, index))
  }

  /** Every returning run of the clear entry executes a clearing store to the slot. */
  ghost predicate ClearedInRun(m: IrModule, f: Function, roles: ForeignRoleMap, slot: SlotId, r: Run) {
    exists inst, k: nat ::
      && ExecutedAt(f, r, k, inst) && WritesSlot(CodeOf(m, f), inst, slot) && WritesClear(m, f, roles, r.states[k], inst)
  }

  ghost predicate AlwaysCleared(m: IrModule, f: Function, roles: ForeignRoleMap, slots: set<SlotId>) {
    forall slot, r :: slot in slots && ReturningRun(f, r) ==> ClearedInRun(m, f, roles, slot, r)
  }

  lemma QuietWhenNothingFound(m: IrModule, f: Function, roles: ForeignRoleMap, a: ForeignAnalysis, index: nat)
    requires Describes(m, roles, a) && a.retention == NoRetain
    requires Named(m, roles.registerSymbol, f) && index in TrackedIndices(roles)
    ensures QuietParam(CodeOf(m, f), roles.callbackArgIndex, index)
  {
    var code := CodeOf(m, f);
    forall alias, inst | alias in Solved(code).ParamAliases(index) && inst in code.insts && Mentions(inst, alias)
      ensures HarmlessUse(code, inst, alias, roles.callbackArgIndex)
    {
      JudgeUseExact(code, inst, alias, roles.callbackArgIndex);
      assert UseOf(code, index, alias, inst);
      match JudgeUse(code, Solved(code), inst, alias, roles.callbackArgIndex)
      case Quiet =>
      case Escapes(reason) => assert ParamEscapes(code, roles.callbackArgIndex, index);
      case Retains(slot) =>
        assert RetainedBy(code, roles.callbackArgIndex, index, inst, slot);
        assert SlotRetained(m, f, roles, slot);
    }
  }

  /** A NoRetain answer holds of every run of the register entry. */
  lemma NoRetainMeansNeverRetained(m: IrModule, roles: ForeignRoleMap, a: ForeignAnalysis, f: Function)
    requires WellFormedModule(m) && Describes(m, roles, a) && a.retention == NoRetain
    requires Named(m, roles.registerSymbol, f)
    requires forall index :: index in TrackedIndices(roles) ==> NoAliasIndex(CodeOf(m, f), index)
    ensures NeverRetained(m, f, roles)
  {
    FindFunctionIff(m, roles.registerSymbol);
    forall index, r, k: nat | index in TrackedIndices(roles) && IsRun(f, r) && TokenFree(f, r, index) && k < |r.states|
      ensures StaysPrivate(m, f, roles, index, r.states[k])
    {
      QuietWhenNothingFound(m, f, roles, a, index);
      NoRetainSound(m, f, r, k, roles.callbackArgIndex, index);
    }
  }

  /** A ClearsOnAllPaths answer holds of every returning run of the clear entry. */
  lemma ClearsMeansAlwaysCleared(m: IrModule, roles: ForeignRoleMap, a: ForeignAnalysis) returns (f: Function)
    requires WellFormedModule(m) && ClearDescribed(m, roles, a.slots, a.clear) && a.clear == ClearsOnAllPaths
    ensures ClearEntry(m, roles, f) && AlwaysCleared(m, f, roles, a.slots)
  {
    f :| ClearDecidable(m, roles, a.slots, f) && forall slot :: slot in a.slots ==> Cleared(m, f, roles, slot);
    forall slot, r | slot in a.slots && ReturningRun(f, r)
      ensures ClearedInRun(m, f, roles, slot, r)
    {
      var inst :| ClearingStore(m, f, roles, inst, slot);
      var k := ClearingStoreSound(m, f, roles, r, inst, slot);
      assert WritesSlot(CodeOf(m, f), inst, slot);
    }
  }

  /** What the answers have in common, with and without a register entry. */
  lemma AnswersFit(m: IrModule, roles: ForeignRoleMap, a: ForeignAnalysis)
    requires Describes(m, roles, a)
    ensures a.invokeEvidence == if a.invocation == MayInvokeAfterReturn then Some(SameSlotInvokeCandidate) else None
    ensures a.invocation == MayInvokeAfterReturn <==> a.slots != {} && SlotInvoked(m, a.slots)
    ensures a.retention == MayRetain <==> a.slots != {}
    ensures a.invocation == SynchronousInvokeOnly ==> a.retention == NoRetain
    ensures a.clear == ClearsOnAllPaths ==> ClearDescribed(m, roles, a.slots, a.clear)
    ensures a.retention == NoRetain ==> !Unnamed(m, roles.registerSymbol)
  {
    FindFunctionIff(m, roles.registerSymbol);
    if FindFunction(m, roles.registerSymbol).Some? {
      assert DescribesEntry(m, FindFunction(m, roles.registerSymbol).value, roles, a);
    }
  }

  /** Facts that come from the analysis never support an incompatibility on their own. */
  lemma AnalysisNeverIncompatible(m: IrModule, roles: ForeignRoleMap, a: ForeignAnalysis, handOff: ForeignHandOffKey,
                                  rust: RustContractFact, subject: LifetimeSubject)
    requires Describes(m, roles, a)
    ensures Judge(rust, Some(BehaviorFact(a, handOff)), subject).staticVerdict != SupportedIncompatibility
  {
    AnswersFit(m, roles, a);
    IncompatibleIff(rust, Some(BehaviorFact(a, handOff)), subject);
  }

  /** What such facts leave open is always the late invocation, never the joint trace. */
  lemma AnalysisLeavesLateInvokeOpen(m: IrModule, roles: ForeignRoleMap, a: ForeignAnalysis, handOff: ForeignHandOffKey,
                                     rust: RustContractFact, subject: LifetimeSubject)
    requires Describes(m, roles, a) && JoinsWith(rust.handOff, handOff)
    ensures Judge(rust, Some(BehaviorFact(a, handOff)), subject).witnessObligation == Some(EstablishLateInvoke) <==>
      && SeparationPossible(rust, BehaviorFact(a, handOff), subject)
      && a.slots != {} && SlotInvoked(m, a.slots)
    ensures Judge(rust, Some(BehaviorFact(a, handOff)), subject).witnessObligation != Some(EstablishJointTrace)
  {
    AnswersFit(m, roles, a);
    ObligationIff(rust, BehaviorFact(a, handOff), subject);
  }

  ghost predicate EntryDenies(m: IrModule, f: Function, roles: ForeignRoleMap, slots: set<SlotId>, rust: RustContractFact) {
    || (Guarded(rust) && exists g :: ClearDecidable(m, roles, slots, g) && forall slot <- slots :: Cleared(m, g, roles, slot))
    || ((forall slot :: !SlotRetained(m, f, roles, slot)) && !Escaped(m, f, roles))
  }

  /** There is a register entry for which every slot is cleared, or nothing that lets an argument survive the call. */
  ghost predicate ForeignSideDenies(m: IrModule, roles: ForeignRoleMap, slots: set<SlotId>, rust: RustContractFact) {
    exists f :: Named(m, roles.registerSymbol, f) && EntryDenies(m, f, roles, slots, rust)
  }

  /**
   * The whole way from the two texts to the verdict: compatible exactly if the types rule the separation out, or the
   * keys join and the foreign functions deny it.
   */
  lemma CompatibleExactlyIf(m: IrModule, roles: ForeignRoleMap, a: ForeignAnalysis, handOff: ForeignHandOffKey,
                            rust: RustContractFact, subject: LifetimeSubject)
    requires Describes(m, roles, a)
    ensures Judge(rust, Some(BehaviorFact(a, handOff)), subject).staticVerdict == CompatibleWithinAnalyzedFragment <==>
      || ShapeRulesOut(rust, subject)
      || (JoinsWith(rust.handOff, handOff) && ForeignSideDenies(m, roles, a.slots, rust))
  {
    FindFunctionIff(m, roles.registerSymbol);
    CompatibleIff(rust, Some(BehaviorFact(a, handOff)), subject);
    forall f | Named(m, roles.registerSymbol, f)
      ensures EntryDenies(m, f, roles, a.slots, rust) <==>
        (Guarded(rust) && a.clear == ClearsOnAllPaths) || a.retention == NoRetain || a.invocation == SynchronousInvokeOnly
    {
      assert DescribesEntry(m, f, roles, a);
    }
  }

  /**
   * Where the register entry is not defined, or belongs to another hand-off, the analysis decides nothing: the verdict
   * is compatible if the types alone say so, and otherwise open, with a reason and without an obligation.
   */
  lemma NothingKnownNothingClaimed(m: IrModule, roles: ForeignRoleMap, a: ForeignAnalysis, handOff: ForeignHandOffKey,
                                   rust: RustContractFact, subject: LifetimeSubject)
    requires Describes(m, roles, a)
    requires Unnamed(m, roles.registerSymbol) || !JoinsWith(rust.handOff, handOff)
    ensures
      var verdict := Judge(rust, Some(BehaviorFact(a, handOff)), subject);
      && verdict.staticVerdict == Judge(rust, None, subject).staticVerdict
      && verdict.staticVerdict == (if ShapeRulesOut(rust, subject) then CompatibleWithinAnalyzedFragment else InsufficientEvidence)
      && (verdict.staticVerdict == InsufficientEvidence ==> verdict.assumptions != [])
      && verdict.witnessObligation == None
  {
    var fact := BehaviorFact(a, handOff);
    CompatibleExactlyIf(m, roles, a, handOff, rust, subject);
    AnalysisNeverIncompatible(m, roles, a, handOff, rust, subject);
    RustOnlyVerdicts(rust, fact, subject);
    InsufficientSaysWhy(rust, Some(fact), subject);
    if JoinsWith(rust.handOff, handOff) { ObligationIff(rust, fact, subject); }
  }

  /**
   * A compatible verdict on a subject whose separation the types permit is backed by runs: either the
   * register entry never retains a tracked argument, or a guard exists and the clear entry always clears.
   */
  lemma CompatibleIsBackedByRuns(m: IrModule, roles: ForeignRoleMap, a: ForeignAnalysis, handOff: ForeignHandOffKey,
                                 rust: RustContractFact, subject: LifetimeSubject)
    requires WellFormedModule(m) && Describes(m, roles, a)
    requires forall f, index :: Named(m, roles.registerSymbol, f) && index in TrackedIndices(roles) ==>
      NoAliasIndex(CodeOf(m, f), index)
    requires ShapePermits(rust, subject)
    requires Judge(rust, Some(BehaviorFact(a, handOff)), subject).staticVerdict == CompatibleWithinAnalyzedFragment
    ensures (exists f :: Named(m, roles.registerSymbol, f) && NeverRetained(m, f, roles))
      || (Guarded(rust) && exists f :: ClearEntry(m, roles, f) && AlwaysCleared(m, f, roles, a.slots))
  {
    CompatibleIff(rust, Some(BehaviorFact(a, handOff)), subject);
    AnswersFit(m, roles, a);
    if a.retention == NoRetain {
      FindFunctionIff(m, roles.registerSymbol);
      var f := FindFunction(m, roles.registerSymbol).value;
      NoRetainMeansNeverRetained(m, roles, a, f);
    } else {
      var f := ClearsMeansAlwaysCleared(m, roles, a);
    }
  }

  /** A RetainOnEveryPath answer holds of every returning run: each recorded store runs, with the recorded argument. */
  lemma RetainOnEveryPathMeansRuns(m: IrModule, roles: ForeignRoleMap, a: ForeignAnalysis, f: Function, r: Run,
                                   index: nat, inst: Inst, slot: SlotId) returns (k: nat)
    requires WellFormedModule(m) && Describes(m, roles, a) && a.pathCompatibility == RetainOnEveryPath
    requires Named(m, roles.registerSymbol, f) && ReturningRun(f, r)
    requires InRange(f, roles, index) && RetainedBy(CodeOf(m, f), roles.callbackArgIndex, index, inst, slot)
    ensures ExecutedAt(f, r, k, inst) && inst.kind.Store? && slot in a.slots
    ensures Eval(r.states[k], inst.kind.value) == Arg(index)
      || (Eval(r.states[k], inst.kind.value).Uninit? && !Ordered(f, CodeOf(m, f), inst, inst.kind.value))
  {
    FindFunctionIff(m, roles.registerSymbol);
    RetainedIsRetentionStore(CodeOf(m, f), roles.callbackArgIndex, index, inst, slot);
    k := RetainOnEveryPathSound(m, f, r, inst, index, slot);
  }

  lemma RetainedIsRetentionStore(code: Code, callbackIndex: nat, index: nat, inst: Inst, slot: SlotId)
    requires RetainedBy(code, callbackIndex, index, inst, slot)
    ensures RetentionStore(code, inst, index, slot)
  {
    var alias :| UseOf(code, index, alias, inst) && RetainsAlias(code, inst, alias, slot);
    AliasIffOrigin(code, index, alias);
  }
}
