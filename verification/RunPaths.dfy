/** From the blocks every path must visit to the instructions every returning run executes. */
module RunPaths {
  import opened Support
  import opened ForeignIr
  import opened PathInfo
  import opened Dataflow
  import opened Semantics
  import opened Invariants
  import opened Definiteness
  import opened CopyOrder
  import opened ForeignFacts

  /** The blocks entered during the first k steps. */
  ghost function BlockPath(f: Function, r: Run, k: nat): seq<nat>
    requires k < |r.states|
  {
    if k == 0 then [0]
    else if HasInst(f, r.states[k - 1]) && LeavesBlock(CurrentInst(f, r.states[k - 1]).kind)
    then BlockPath(f, r, k - 1) + [r.states[k].block]
    else BlockPath(f, r, k - 1)
  }

  ghost predicate Visits(r: Run, k: nat, b: nat, i: nat)
    requires k < |r.states|
  {
    exists j :: 0 <= j <= k && r.states[j].block == b && r.states[j].index == i
  }

  ghost predicate VisitsUpTo(r: Run, k: nat, b: nat, n: nat)
    requires k < |r.states|
  {
    forall i :: 0 <= i < n ==> Visits(r, k, b, i)
  }

  lemma VisitsLater(r: Run, k: nat, next: nat, b: nat, n: nat)
    requires k <= next < |r.states| && VisitsUpTo(r, k, b, n)
    ensures VisitsUpTo(r, next, b, n)
  {
    forall i | 0 <= i < n ensures Visits(r, next, b, i) {
      assert Visits(r, k, b, i);
    }
  }

  ghost predicate PathSoFar(f: Function, p: seq<nat>) {
    && p != [] && p[0] == 0
    && forall k :: 0 <= k < |p| - 1 ==> Jump(f, p[k], p[k + 1])
  }

  /** Every block left behind was executed from start to end; the current one up to the program counter. */
  ghost predicate ExecutedSoFar(f: Function, r: Run, k: nat)
    requires k < |r.states|
  {
    var p := BlockPath(f, r, k);
    && HasInst(f, r.states[k])
    && PathSoFar(f, p)
    && p[|p| - 1] == r.states[k].block
    && (forall j :: 0 <= j < |p| - 1 ==> p[j] < |f.blocks| && VisitsUpTo(r, k, p[j], |f.blocks[p[j]].insts|))
    && VisitsUpTo(r, k, r.states[k].block, r.states[k].index + 1)
  }

  lemma NextInstruction(f: Function, s: State, c: Choice, t: State)
    requires WellPlaced(f) && CompleteCfg(f) && HasInst(f, s) && Step(f, s, c, t)
    ensures HasInst(f, t)
    ensures LeavesBlock(CurrentInst(f, s).kind) ==> IsLast(f, s) && Jump(f, s.block, t.block) && t.index == 0
    ensures !LeavesBlock(CurrentInst(f, s).kind) ==> t.block == s.block && t.index == s.index + 1
  {
    assert UnderstoodBlock(f, s.block);
    if LeavesBlock(CurrentInst(f, s).kind) {
      assert IsLast(f, s);
      assert UnderstoodBlock(f, t.block);
    }
  }

  lemma {:induction false} RunFollowsPath(f: Function, r: Run, k: nat)
    requires WellPlaced(f) && CompleteCfg(f) && |f.blocks| > 0
    requires k < |r.states| && k <= |r.choices| && RunsTo(f, r, k)
    ensures ExecutedSoFar(f, r, k)
  {
    if k == 0 {
      assert UnderstoodBlock(f, 0);
      assert Visits(r, 0, 0, 0);
    } else {
      RunFollowsPath(f, r, k - 1);
      NextInstruction(f, r.states[k - 1], r.choices[k - 1], r.states[k]);
      StepKeepsPath(f, r, k);
    }
  }

  lemma StepKeepsPath(f: Function, r: Run, k: nat)
    requires 0 < k < |r.states| && ExecutedSoFar(f, r, k - 1) && HasInst(f, r.states[k])
    requires LeavesBlock(CurrentInst(f, r.states[k - 1]).kind) ==>
      IsLast(f, r.states[k - 1]) && Jump(f, r.states[k - 1].block, r.states[k].block) && r.states[k].index == 0
    requires !LeavesBlock(CurrentInst(f, r.states[k - 1]).kind) ==>
      r.states[k].block == r.states[k - 1].block && r.states[k].index == r.states[k - 1].index + 1
    ensures ExecutedSoFar(f, r, k)
  {
    var p, q := BlockPath(f, r, k - 1), BlockPath(f, r, k);
    assert Visits(r, k, r.states[k].block, r.states[k].index);
    forall j | 0 <= j < |p| - 1 ensures p[j] < |f.blocks| && VisitsUpTo(r, k, p[j], |f.blocks[p[j]].insts|) {
      VisitsLater(r, k - 1, k, p[j], |f.blocks[p[j]].insts|);
    }
    VisitsLater(r, k - 1, k, r.states[k - 1].block, r.states[k - 1].index + 1);
  }

  /** A returning run executes every instruction of every unavoidable block. */
  lemma ForcedBlockExecuted(f: Function, r: Run, b: nat, i: nat)
    requires WellPlaced(f) && CompleteCfg(f) && ReturningRun(f, r)
    requires b in ForcedBlocks(f) && i < |f.blocks[b].insts|
    ensures exists k :: 0 <= k < |r.states| && r.states[k].block == b && r.states[k].index == i
  {
    var last := |r.states| - 1;
    RunFollowsPath(f, r, last);
    var p := BlockPath(f, r, last);
    assert ReturnsAt(f, p[|p| - 1]);
    assert ReturningPath(f, p);
    var j :| 0 <= j < |p| && p[j] == b;
    assert VisitsUpTo(r, last, b, |f.blocks[b].insts|);
    assert Visits(r, last, b, i);
  }

  lemma ForcedInstExecuted(f: Function, r: Run, inst: Inst) returns (k: nat)
    requires WellPlaced(f) && CompleteCfg(f) && ReturningRun(f, r)
    requires inst in Insts(f) && inst.block in ForcedBlocks(f)
    ensures ExecutedAt(f, r, k, inst)
  {
    FlattenInstInBlock(f.blocks, inst);
    var b, i :| 0 <= b < |f.blocks| && 0 <= i < |f.blocks[b].insts| && f.blocks[b].insts[i] == inst;
    ForcedBlockExecuted(f, r, b, i);
    k :| 0 <= k < |r.states| && r.states[k].block == b && r.states[k].index == i;
  }

  /** A store of an argument into a caller-owned slot, as the retention query records it. */
  ghost predicate RetentionStore(code: Code, inst: Inst, index: nat, slot: SlotId) {
    && inst in code.insts && inst.kind.Store?
    && Solved(code).OriginOf(inst.kind.value) == Param(index)
    && Solved(code).PointerSlot(code, inst.kind.dest) == Some(slot)
    && Solved(code).IsCallerOwned(inst.kind.dest)
  }

  /**
   * A retention store on every path really happens in every returning run, with the recorded argument; with nothing only if
   * its copy chain is out of order.
   */
  lemma RetainOnEveryPathSound(m: IrModule, f: Function, r: Run, inst: Inst, index: nat, slot: SlotId) returns (k: nat)
    requires SsaForm(m, f) && WellPlaced(f) && CompleteCfg(f) && ReturningRun(f, r)
    requires RetentionStore(CodeOf(m, f), inst, index, slot) && inst.block in ForcedBlocks(f)
    ensures ExecutedAt(f, r, k, inst)
    ensures Eval(r.states[k], inst.kind.value) == Arg(index)
      || (Eval(r.states[k], inst.kind.value).Uninit? && !Ordered(f, CodeOf(m, f), inst, inst.kind.value))
  {
    k := ForcedInstExecuted(f, r, inst);
    RunReads(m, f, r, k, inst, inst.kind.value);
  }

  /** A store that clears a slot whatever path is taken: null, or an argument the caller chooses. */
  ghost predicate ClearingStore(m: IrModule, f: Function, roles: ForeignRoleMap, inst: Inst, slot: SlotId) {
    var code := CodeOf(m, f);
    && inst in code.insts && inst.kind.Store? && inst.block in ForcedBlocks(f)
    && Solved(code).PointerSlot(code, inst.kind.dest) == Some(slot)
    && ClearingOrigin(roles, Solved(code).OriginOf(inst.kind.value))
  }

  predicate ClearingOrigin(roles: ForeignRoleMap, o: ValueOrigin) {
    o.FromNull? || (o.Param? && (o.index == roles.callbackArgIndex || Some(o.index) == roles.userdataArgIndex))
  }

  /** Null, the callback argument or the user-data argument of the clear entry. */
  predicate ClearingValue(roles: ForeignRoleMap, v: Value) {
    v.NullPointer? || (v.Arg? && (v.index == roles.callbackArgIndex || Some(v.index) == roles.userdataArgIndex))
  }

  /** The store writes a clearing value; nothing only if its copy chain is out of order. */
  ghost predicate WritesClear(m: IrModule, f: Function, roles: ForeignRoleMap, s: State, store: Inst)
    requires store.kind.Store?
  {
    || ClearingValue(roles, Eval(s, store.kind.value))
    || (Eval(s, store.kind.value).Uninit? && !Ordered(f, CodeOf(m, f), store, store.kind.value))
  }

  /** A clearing store really happens in every returning run of the clear entry. */
  lemma ClearingStoreSound(m: IrModule, f: Function, roles: ForeignRoleMap, r: Run, inst: Inst, slot: SlotId) returns (k: nat)
    requires SsaForm(m, f) && WellPlaced(f) && CompleteCfg(f) && ReturningRun(f, r)
    requires ClearingStore(m, f, roles, inst, slot)
    ensures ExecutedAt(f, r, k, inst) && WritesClear(m, f, roles, r.states[k], inst)
  {
    k := ForcedInstExecuted(f, r, inst);
    RunReads(m, f, r, k, inst, inst.kind.value);
  }

  /** In every run that reaches the store it stores exactly the argument, if and only if the copy chain is in order. */
  lemma RetainedExactlyIff(m: IrModule, f: Function, inst: Inst, index: nat, slot: SlotId)
    requires SsaForm(m, f) && RetentionStore(CodeOf(m, f), inst, index, slot) && Reachable(f, inst)
    ensures (forall r, k: nat :: IsRun(f, r) && ExecutedAt(f, r, k, inst) ==> Eval(r.states[k], inst.kind.value) == Arg(index))
      <==> Ordered(f, CodeOf(m, f), inst, inst.kind.value)
  {
    ExactIffOrdered(m, f, inst, inst.kind.value);
    assert RootValue(Solved(CodeOf(m, f)).OriginOf(inst.kind.value)) == Arg(index);
  }

  /** In every run that reaches the store it stores null or a matching argument, if and only if the copy chain is in order. */
  lemma ClearedExactlyIff(m: IrModule, f: Function, roles: ForeignRoleMap, inst: Inst, slot: SlotId)
    requires SsaForm(m, f) && ClearingStore(m, f, roles, inst, slot) && Reachable(f, inst)
    ensures
      (forall r, k: nat :: IsRun(f, r) && ExecutedAt(f, r, k, inst) ==>
         ClearingValue(roles, Eval(r.states[k], inst.kind.value)))
      <==> Ordered(f, CodeOf(m, f), inst, inst.kind.value)
  {
    ExactIffOrdered(m, f, inst, inst.kind.value);
    forall r, k: nat | IsRun(f, r) && ExecutedAt(f, r, k, inst)
      ensures ClearingValue(roles, Eval(r.states[k], inst.kind.value)) <==>
        Eval(r.states[k], inst.kind.value) == RootValue(Solved(CodeOf(m, f)).OriginOf(inst.kind.value))
    {
      RunReads(m, f, r, k, inst, inst.kind.value);
    }
  }
}
