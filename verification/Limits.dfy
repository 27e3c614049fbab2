/** Functions for which the analysis says too much: why the theorems about runs name their conditions. */
module Limits {
  import opened Support
  import opened ForeignIr
  import opened UseIndex
  import opened Dataflow
  import opened Semantics
  import opened Invariants
  import opened Walks
  import opened Definiteness
  import opened CopyOrder
  import opened ForeignFacts
  import opened Retention
  import opened PathInfo
  import opened RunPaths
  import opened Queries

  function Straight(insts: seq<Inst>): Function {
    Function("register", ["cb"], [Block(None, insts)])
  }

  function Globals(): IrModule {
    IrModule(map["g" := GlobalVar("g", false)], [])
  }

  function Plain(result: Option<string>, kind: InstKind, ordinal: nat): Inst {
    Inst(result, kind, 0, ordinal, "")
  }

  /** %i = ptrtoint %cb; %p = getelementptr i8, null, %i; store %p, @g; ret */
  function IndexedStore(): seq<Inst> {
    [Plain(Some("i"), Cast(Local("cb")), 0),
     Plain(Some("p"), Gep(Null, "i8", ["%i"]), 1),
     Plain(None, Store(Local("p"), Global("g")), 2),
     Plain(None, Return, 3)]
  }

  /** %r = call %cb(%cb); store %r, @g; ret */
  function ReturningCallback(): seq<Inst> {
    [Plain(Some("r"), Call(Local("cb"), [Local("cb")]), 0),
     Plain(None, Store(Local("r"), Global("g")), 1),
     Plain(None, Return, 2)]
  }

  lemma OneBlock(insts: seq<Inst>)
    ensures Insts(Straight(insts)) == insts
  {
    assert Flatten([Block(None, insts)]) == insts + Flatten([]);
  }

  lemma NoAliasFrom(code: Code, j: nat, name: string)
    requires SingleAssignment(code) && j < |code.insts| && code.insts[j].result == Some(name)
    requires Copied(code, code.insts[j]).None?
    ensures name !in Solved(code).ParamAliases(0)
  {
    RootedCopies(code, Param(0), j);
    AliasIffOrigin(code, 0, name);
  }

  /** The last state of the run stores the argument to a global, although every listed use of it is quiet. */
  ghost predicate RetainedDespiteQuiet(m: IrModule, f: Function, r: Run) {
    && SsaForm(m, f) && WellPlaced(f) && QuietParam(CodeOf(m, f), 0, 0) && IsRun(f, r)
    && StoresArgument(f, r.states[|r.states| - 1])
  }

  ghost predicate StoresArgument(f: Function, s: State) {
    && HasInst(f, s) && CurrentInst(f, s).kind.Store? && CurrentInst(f, s).kind.dest.Global?
    && Eval(s, CurrentInst(f, s).kind.value) == Arg(0)
  }

  /** Such a store is exactly what a retained argument looks like. */
  lemma StoringIsRetaining(code: Code, f: Function, s: State)
    requires StoresArgument(f, s)
    ensures !KeepsToSpills(f, code, s, CurrentInst(f, s), 0, 0)
  {
  }

  /** The run ends before an instruction that does not keep the argument to spill cells. */
  ghost predicate RetainsAtEnd(m: IrModule, f: Function, r: Run) {
    && r.states != [] && HasInst(f, r.states[|r.states| - 1])
    && !KeepsToSpills(f, CodeOf(m, f), r.states[|r.states| - 1], CurrentInst(f, r.states[|r.states| - 1]), 0, 0)
  }

  lemma IndexedShape()
    ensures SsaForm(Globals(), Straight(IndexedStore())) && WellPlaced(Straight(IndexedStore()))
  {
    OneBlock(IndexedStore());
  }

  lemma IndexedQuiet()
    ensures QuietParam(CodeOf(Globals(), Straight(IndexedStore())), 0, 0)
    ensures !NoAliasIndex(CodeOf(Globals(), Straight(IndexedStore())), 0)
  {
    var code := CodeOf(Globals(), Straight(IndexedStore()));
    IndexedShape();
    OneBlock(IndexedStore());
    NoAliasFrom(code, 1, "p");
    RootedParam(code, 0);
    RootedCopies(code, Param(0), 0);
    AliasIffOrigin(code, 0, "i");
    assert "%" + "i" == "%i";
    assert code.insts[1] in code.insts && "%i" in code.insts[1].kind.indices;
  }

  const AT_CAST := State(0, 0, map["cb" := Arg(0)], map[], {}, 0)
  const AT_GEP := State(0, 1, map["cb" := Arg(0), "i" := Arg(0)], map[], {}, 1)
  const AT_STORE := State(0, 2, map["cb" := Arg(0), "i" := Arg(0), "p" := Arg(0)], map[], {}, 2)

  lemma IndexedSteps()
    ensures AT_CAST == Initial(Straight(IndexedStore()))
    ensures Step(Straight(IndexedStore()), AT_CAST, Choice(NullPointer, map[], 0, 1), AT_GEP)
    ensures Arg(0) in Supplied(AT_GEP, IndexedStore()[1])
  {
    assert AT_CAST == Initial(Straight(IndexedStore())) by { assert ["cb"][..0] == []; }
    IndexIsI();
    assert Eval(AT_GEP, Local("i")) == Arg(0);
  }

  lemma IndexedRun() returns (r: Run)
    ensures IsRun(Straight(IndexedStore()), r) && TokenFree(Straight(IndexedStore()), r, 0)
    ensures StoresArgument(Straight(IndexedStore()), r.states[|r.states| - 1])
  {
    var f := Straight(IndexedStore());
    r := Run([AT_CAST, AT_GEP, AT_STORE], [Choice(NullPointer, map[], 0, 1), Choice(Arg(0), map[], 0, 2)]);
    IndexedSteps();
    assert Step(f, AT_GEP, r.choices[1], AT_STORE);
    assert RunsTo(f, r, 0) && RunsTo(f, r, 1);
    assert TokenFreeTo(f, r, 0, 0) && TokenFreeTo(f, r, 1, 0);
  }

  lemma IndexIsI()
    ensures IndexOperands(["%i"]) == [Local("i")]
  {
    assert "%i"[1..] == "i";
    assert ["%i"][1..] == [];
  }

  /** An argument used as an address index is stored to a global, and the use list never shows it. */
  lemma IndexUseIsMissed() returns (r: Run)
    ensures RetainedDespiteQuiet(Globals(), Straight(IndexedStore()), r)
    ensures RetainsAtEnd(Globals(), Straight(IndexedStore()), r)
    ensures TokenFree(Straight(IndexedStore()), r, 0)
    ensures !NoAliasIndex(CodeOf(Globals(), Straight(IndexedStore())), 0)
  {
    IndexedShape();
    IndexedQuiet();
    r := IndexedRun();
    StoringIsRetaining(CodeOf(Globals(), Straight(IndexedStore())), Straight(IndexedStore()), r.states[|r.states| - 1]);
  }

  lemma ReturningShape()
    ensures SsaForm(Globals(), Straight(ReturningCallback())) && WellPlaced(Straight(ReturningCallback()))
  {
    OneBlock(ReturningCallback());
  }

  lemma ReturningQuiet()
    ensures QuietParam(CodeOf(Globals(), Straight(ReturningCallback())), 0, 0)
    ensures NoAliasIndex(CodeOf(Globals(), Straight(ReturningCallback())), 0)
  {
    var code := CodeOf(Globals(), Straight(ReturningCallback()));
    ReturningShape();
    OneBlock(ReturningCallback());
    NoAliasFrom(code, 0, "r");
  }

  lemma ReturningCallbackRun() returns (r: Run)
    ensures IsRun(Straight(ReturningCallback()), r)
    ensures StoresArgument(Straight(ReturningCallback()), r.states[|r.states| - 1])
  {
    var f := Straight(ReturningCallback());
    var s0 := State(0, 0, map["cb" := Arg(0)], map[], {}, 0);
    var c0 := Choice(Arg(0), map[], 0, 1);
    var s1 := State(0, 1, map["cb" := Arg(0), "r" := Arg(0)], map[], {}, 1);
    r := Run([s0, s1], [c0]);
    assert s0 == Initial(f) by { assert ["cb"][..0] == []; }
    assert Step(f, s0, c0, s1);
    assert RunsTo(f, r, 0);
  }

  /** A callback that returns its own argument defeats the use list too: the run is not token free. */
  lemma ReturnedArgumentIsMissed() returns (r: Run)
    ensures RetainedDespiteQuiet(Globals(), Straight(ReturningCallback()), r)
    ensures RetainsAtEnd(Globals(), Straight(ReturningCallback()), r)
    ensures NoAliasIndex(CodeOf(Globals(), Straight(ReturningCallback())), 0)
  {
    ReturningShape();
    ReturningQuiet();
    r := ReturningCallbackRun();
    StoringIsRetaining(CodeOf(Globals(), Straight(ReturningCallback())), Straight(ReturningCallback()), r.states[|r.states| - 1]);
  }

  // ---- A cell that one path leaves unwritten ----

  function In(result: Option<string>, kind: InstKind, block: nat, ordinal: nat): Inst {
    Inst(result, kind, block, ordinal, "")
  }

  /**
   * 0: %a = alloca; br 1, 2    1: store value, %a; br 3    2: br 3    3: %v = load %a; store %v, @g; ret
   * Every definition dominates its uses, and %a is a cell with a single store; the path through 2 skips that store.
   */
  function Skipping(value: Operand): Function {
    Function("entry", ["cb"], [
      Block(None, [In(Some("a"), Alloca, 0, 0), In(None, Branch(["1", "2"]), 0, 1)]),
      Block(Some("1"), [In(None, Store(value, Local("a")), 1, 2), In(None, Branch(["3"]), 1, 3)]),
      Block(Some("2"), [In(None, Branch(["3"]), 2, 4)]),
      Block(Some("3"), [In(Some("v"), Load(Local("a")), 3, 5), FinalStore(), In(None, Return, 3, 7)])])
  }

  function FinalStore(): Inst {
    In(None, Store(Local("v"), Global("g")), 3, 6)
  }

  function SkippingInsts(value: Operand): seq<Inst> {
    [In(Some("a"), Alloca, 0, 0), In(None, Branch(["1", "2"]), 0, 1),
     In(None, Store(value, Local("a")), 1, 2), In(None, Branch(["3"]), 1, 3), In(None, Branch(["3"]), 2, 4),
     In(Some("v"), Load(Local("a")), 3, 5), FinalStore(), In(None, Return, 3, 7)]
  }

  function SkippingModule(value: Operand): IrModule {
    IrModule(map["g" := GlobalVar("g", false)], [Skipping(value)])
  }

  function SkippingRoles(): ForeignRoleMap {
    ForeignRoleMap("entry", 0, None, Some("entry"))
  }

  const SLOT_G := SlotId(GlobalSlot("g"), [])

  predicate NullOrCallback(value: Operand) {
    value == Null || value == Local("cb")
  }

  lemma SkippingFlat(value: Operand)
    ensures Insts(Skipping(value)) == SkippingInsts(value)
  {
    var blocks := Skipping(value).blocks;
    assert Flatten(blocks[4..]) == [];
    assert Flatten(blocks[3..]) == blocks[3].insts + Flatten(blocks[3..][1..]);
    assert Flatten(blocks[2..]) == blocks[2].insts + Flatten(blocks[2..][1..]);
    assert Flatten(blocks[1..]) == blocks[1].insts + Flatten(blocks[1..][1..]);
    assert blocks[3..][1..] == blocks[4..] && blocks[2..][1..] == blocks[3..] && blocks[1..][1..] == blocks[2..];
  }

  lemma SkippingAssigns(value: Operand)
    ensures SingleAssignment(CodeOf(SkippingModule(value), Skipping(value)))
  {
    SkippingFlat(value);
    var insts := SkippingInsts(value);
    forall j | 0 <= j < |insts| && insts[j].result.Some? ensures j in {0, 5} { }
  }

  lemma SkippingPlaced(value: Operand)
    ensures WellPlaced(Skipping(value))
  {
  }

  lemma SkippingHasNoIndex(value: Operand)
    ensures IntegerIndices(Insts(Skipping(value)))
  {
    SkippingFlat(value);
    forall j | 0 <= j < |SkippingInsts(value)| ensures !SkippingInsts(value)[j].kind.Gep? { }
  }

  lemma SkippingShape(value: Operand)
    ensures SsaForm(SkippingModule(value), Skipping(value)) && WellPlaced(Skipping(value))
  {
    SkippingAssigns(value);
    SkippingPlaced(value);
    SkippingHasNoIndex(value);
  }

  lemma FindsLabel(f: Function, name: string, b: nat)
    requires b < |f.blocks| && f.blocks[b].tag == Some(name) && forall j :: 0 <= j < b ==> f.blocks[j].tag != Some(name)
    ensures BlockIndex(f, name) == Some(b)
  {
  }

  lemma SkippingLabels(value: Operand)
    ensures BlockIndex(Skipping(value), "1") == Some(1) && BlockIndex(Skipping(value), "2") == Some(2)
    ensures BlockIndex(Skipping(value), "3") == Some(3)
  {
    FindsLabel(Skipping(value), "1", 1);
    FindsLabel(Skipping(value), "2", 2);
    FindsLabel(Skipping(value), "3", 3);
  }

  lemma SkippingCfg(value: Operand)
    ensures CompleteCfg(Skipping(value))
  {
    SkippingLabels(value);
    var f := Skipping(value);
    assert ReturnsAt(f, 3);
    assert UnderstoodBlock(f, 0) && UnderstoodBlock(f, 1) && UnderstoodBlock(f, 2) && UnderstoodBlock(f, 3);
  }

  /** The only way out is through the last block. */
  lemma LastBlockForced(value: Operand)
    ensures 3 in ForcedBlocks(Skipping(value))
  {
    var f := Skipping(value);
    assert ReturnsAt(f, 3);
    forall p | ReturningPath(f, p) ensures 3 in p {
      assert p[|p| - 1] == 3;
    }
  }

  lemma SkippingSpill(value: Operand)
    requires NullOrCallback(value)
    ensures
      var code := CodeOf(SkippingModule(value), Skipping(value));
      "a" in code.spills && code.spills["a"] == value
  {
    SkippingFlat(value);
    var insts := SkippingInsts(value);
    assert Allocates(insts[0], "a");
    assert SpillStore(insts, "a", 2);
    SpillValueUnique(insts, "a", 2);
  }

  lemma LoadCopies(code: Code, inst: Inst, a: string)
    requires inst.kind == Load(Local(a)) && a in code.spills
    ensures Copied(code, inst) == Some(code.spills[a])
  {
  }

  lemma SkippingLoad(value: Operand)
    ensures |Insts(Skipping(value))| == 8
    ensures Insts(Skipping(value))[5] == In(Some("v"), Load(Local("a")), 3, 5)
  {
    SkippingFlat(value);
  }

  lemma SkippingCopies(value: Operand)
    requires NullOrCallback(value)
    ensures
      var code := CodeOf(SkippingModule(value), Skipping(value));
      |code.insts| == 8 && code.insts[5].result == Some("v") && Copied(code, code.insts[5]) == Some(value)
  {
    SkippingSpill(value);
    SkippingLoad(value);
    LoadCopies(CodeOf(SkippingModule(value), Skipping(value)), Insts(Skipping(value))[5], "a");
  }

  function SkippingRoot(value: Operand): ValueOrigin {
    if value.Null? then FromNull else Param(0)
  }

  lemma CallbackRoot(code: Code, value: Operand)
    requires SingleAssignment(code) && code.params == ["cb"] && NullOrCallback(value)
    ensures Solved(code).OriginOf(value) == SkippingRoot(value)
  {
    RootedParam(code, 0);
  }

  /** The analysis takes the loaded register for null, or for the callback. */
  lemma SkippingOrigin(value: Operand)
    requires NullOrCallback(value)
    ensures Solved(CodeOf(SkippingModule(value), Skipping(value))).OriginOf(Local("v")) == SkippingRoot(value)
  {
    var code := CodeOf(SkippingModule(value), Skipping(value));
    SkippingAssigns(value);
    SkippingCopies(value);
    CallbackRoot(code, value);
    RootedCopies(code, SkippingRoot(value), 5);
  }

  /** The walk past the store. */
  function SkippingWalk(): seq<Place> {
    [Place(0, 0), Place(0, 1), Place(2, 0), Place(3, 0), Place(3, 1), Place(3, 2)]
  }

  lemma SkippingIsWalk(value: Operand)
    ensures Walk(Skipping(value), SkippingWalk())
  {
    SkippingLabels(value);
    var f, w := Skipping(value), SkippingWalk();
    assert GoesOn(f, w, 0) && GoesOn(f, w, 1) && GoesOn(f, w, 2) && GoesOn(f, w, 3) && GoesOn(f, w, 4);
  }

  lemma NothingStored(value: Operand, code: Code)
    ensures "a" !in WrittenAt(Skipping(value), code, SkippingWalk(), 3).filled
  {
    var f, w := Skipping(value), SkippingWalk();
    assert !HasPlace(f, w[0]) || !InstAt(f, w[0]).kind.Store?;
    assert !HasPlace(f, w[1]) || !InstAt(f, w[1]).kind.Store?;
    assert !HasPlace(f, w[2]) || !InstAt(f, w[2]).kind.Store?;
    NoStoreNoFill(f, code, w, 3, "a");
  }

  lemma {:induction false} NoStoreNoFill(f: Function, code: Code, w: seq<Place>, t: nat, a: string)
    requires t < |w| && forall j :: 0 <= j < t ==> !StoresAt(f, w, j, a)
    ensures a !in WrittenAt(f, code, w, t).filled
  {
    if t > 0 {
      NoStoreNoFill(f, code, w, t - 1, a);
      assert !StoresAt(f, w, t - 1, a);
    }
  }

  lemma SkippingLeavesUnwritten(value: Operand, code: Code)
    ensures "v" !in WrittenAt(Skipping(value), code, SkippingWalk(), 4).registers
  {
    NothingStored(value, code);
    OneStep(Skipping(value), code, SkippingWalk(), 3, "v");
  }

  /** The run returns, and everything it stores to the slot is the content of an unwritten cell. */
  ghost predicate StoresOnlyNothing(m: IrModule, f: Function, r: Run, slot: SlotId) {
    && ReturningRun(f, r)
    && forall inst, k: nat :: ExecutedAt(f, r, k, inst) && WritesSlot(CodeOf(m, f), inst, slot) ==>
         Eval(r.states[k], inst.kind.value).Uninit?
  }

  lemma OnlyFinalStore(value: Operand, r: Run, inst: Inst, k: nat)
    requires NullOrCallback(value) && |r.states| == |SkippingWalk()| && Trace(r, |SkippingWalk()| - 1) == SkippingWalk()
    requires ExecutedAt(Skipping(value), r, k, inst) && inst.kind.Store?
    ensures k == 4 && inst == FinalStore()
  {
    var w := SkippingWalk();
    assert PlaceOf(r.states[k]) == Trace(r, |w| - 1)[k] == w[k];
    assert k in {0, 1, 2, 3, 4, 5};
  }

  /** The run through block 2: it hands back no token, returns, and stores nothing but nothing. */
  lemma SkippingRun(value: Operand) returns (r: Run)
    requires NullOrCallback(value)
    ensures StoresOnlyNothing(SkippingModule(value), Skipping(value), r, SLOT_G)
    ensures forall index: nat :: TokenFree(Skipping(value), r, index)
    ensures Reachable(Skipping(value), FinalStore())
    ensures |r.states| == 6 && ExecutedAt(Skipping(value), r, 4, FinalStore()) && Eval(r.states[4], Local("v")).Uninit?
  {
    var m, f, w := SkippingModule(value), Skipping(value), SkippingWalk();
    SkippingIsWalk(value);
    r := WalkIsTrace(f, w);
    assert PlaceOf(r.states[4]) == w[4] && PlaceOf(r.states[5]) == w[5];
    SkippingReads(value, r);
    ExecutedIsWalkTo(f, r, 4, FinalStore());
    forall inst, k: nat | ExecutedAt(f, r, k, inst) && WritesSlot(CodeOf(m, f), inst, SLOT_G)
      ensures Eval(r.states[k], inst.kind.value).Uninit?
    {
      OnlyFinalStore(value, r, inst, k);
    }
  }

  lemma TraceLeavesUnwritten(value: Operand, code: Code, r: Run)
    requires |r.states| == |SkippingWalk()| && Trace(r, |SkippingWalk()| - 1) == SkippingWalk()
    ensures "v" !in WrittenAt(Skipping(value), code, Trace(r, 4), 4).registers
  {
    SkippingLeavesUnwritten(value, code);
    assert Trace(r, 5)[..4] == Trace(r, 4)[..4];
    WrittenPrefix(Skipping(value), code, Trace(r, 5), Trace(r, 4), 4);
  }

  lemma SkippingRooted(value: Operand)
    requires NullOrCallback(value)
    ensures Rooted(CodeOf(SkippingModule(value), Skipping(value)), Local("v"))
  {
    SkippingOrigin(value);
  }

  lemma SkippingReads(value: Operand, r: Run)
    requires NullOrCallback(value) && IsRun(Skipping(value), r)
    requires |r.states| == |SkippingWalk()| && Trace(r, |SkippingWalk()| - 1) == SkippingWalk()
    ensures Eval(r.states[4], Local("v")).Uninit?
  {
    SkippingShape(value);
    SkippingRooted(value);
    TraceLeavesUnwritten(value, CodeOf(SkippingModule(value), Skipping(value)), r);
    ValueIffWritten(SkippingModule(value), Skipping(value), r, 4, Local("v"));
  }

  /** The final store is one the static condition singles out. */
  lemma SkippingIsUnordered(value: Operand)
    requires NullOrCallback(value)
    ensures !Ordered(Skipping(value), CodeOf(SkippingModule(value), Skipping(value)), FinalStore(), Local("v"))
  {
    var r := SkippingRun(value);
    SkippingShape(value);
    SkippingRooted(value);
    RunReads(SkippingModule(value), Skipping(value), r, 4, FinalStore(), Local("v"));
  }

  lemma SkippingFound(value: Operand)
    ensures forall f :: Named(SkippingModule(value), "entry", f) <==> f == Skipping(value)
    ensures !Unnamed(SkippingModule(value), "entry")
  {
    FindFunctionIff(SkippingModule(value), "entry");
  }

  lemma FinalStoreInCode(value: Operand)
    ensures FinalStore() in CodeOf(SkippingModule(value), Skipping(value)).insts
  {
    SkippingFlat(value);
    assert SkippingInsts(value)[6] == FinalStore();
  }

  lemma FinalStoreSlot(value: Operand, t: Tables)
    ensures t.PointerSlot(CodeOf(SkippingModule(value), Skipping(value)), FinalStore().kind.dest) == Some(SLOT_G)
    ensures t.IsCallerOwned(FinalStore().kind.dest)
  {
  }

  lemma FinalStoreClears()
    ensures Cleared(SkippingModule(Null), Skipping(Null), SkippingRoles(), SLOT_G)
  {
    FinalStoreInCode(Null);
    FinalStoreSlot(Null, Solved(CodeOf(SkippingModule(Null), Skipping(Null))));
    SkippingOrigin(Null);
    LastBlockForced(Null);
    assert ClearingStore(SkippingModule(Null), Skipping(Null), SkippingRoles(), FinalStore(), SLOT_G);
  }

  lemma SkippingDecidable(slots: set<SlotId>)
    requires slots != {}
    ensures ClearDecidable(SkippingModule(Null), SkippingRoles(), slots, Skipping(Null))
  {
    SkippingFound(Null);
    SkippingCfg(Null);
  }

  lemma ClearsWhen(m: IrModule, roles: ForeignRoleMap, slot: SlotId, clear: ForeignClear, f: Function)
    requires ClearDescribed(m, roles, {slot}, clear) && ClearDecidable(m, roles, {slot}, f) && Cleared(m, f, roles, slot)
    ensures clear == ClearsOnAllPaths
  {
  }

  /** A clear function the analysis reports as clearing on all paths can return having stored only an unwritten cell. */
  lemma ClearingNothing(clear: ForeignClear) returns (r: Run)
    requires ClearDescribed(SkippingModule(Null), SkippingRoles(), {SLOT_G}, clear)
    ensures clear == ClearsOnAllPaths
    ensures SsaForm(SkippingModule(Null), Skipping(Null)) && WellPlaced(Skipping(Null))
    ensures StoresOnlyNothing(SkippingModule(Null), Skipping(Null), r, SLOT_G)
    ensures forall index: nat :: TokenFree(Skipping(Null), r, index)
  {
    SkippingShape(Null);
    SkippingDecidable({SLOT_G});
    FinalStoreClears();
    ClearsWhen(SkippingModule(Null), SkippingRoles(), SLOT_G, clear, Skipping(Null));
    r := SkippingRun(Null);
  }

  lemma FinalStoreRetains()
    ensures
      var code := CodeOf(SkippingModule(Local("cb")), Skipping(Local("cb")));
      RetainedBy(code, 0, 0, FinalStore(), SLOT_G)
  {
    var code := CodeOf(SkippingModule(Local("cb")), Skipping(Local("cb")));
    SkippingOrigin(Local("cb"));
    FinalStoreInCode(Local("cb"));
    FinalStoreSlot(Local("cb"), Solved(code));
    AliasIffOrigin(code, 0, "v");
    assert UseOf(code, 0, "v", FinalStore());
    assert RetainsAlias(code, FinalStore(), "v", SLOT_G);
  }

  lemma SkippingStores(value: Operand, inst: Inst)
    requires inst in SkippingInsts(value) && inst.kind.Store?
    ensures inst == FinalStore() || inst.kind.dest == Local("a")
  {
    var k :| 0 <= k < |SkippingInsts(value)| && SkippingInsts(value)[k] == inst;
  }

  /** Only the final store writes a caller-owned slot. */
  lemma OnlyFinalRetains(index: nat, inst: Inst, slot: SlotId)
    requires RetainedBy(CodeOf(SkippingModule(Local("cb")), Skipping(Local("cb"))), 0, index, inst, slot)
    ensures inst == FinalStore()
  {
    var code := CodeOf(SkippingModule(Local("cb")), Skipping(Local("cb")));
    var alias :| UseOf(code, index, alias, inst) && RetainsAlias(code, inst, alias, slot);
    SkippingFlat(Local("cb"));
    NoSlotForCell();
    SkippingStores(Local("cb"), inst);
  }

  predicate NoAddressing(insts: seq<Inst>) {
    forall j :: 0 <= j < |insts| ==> !insts[j].kind.Gep? && !insts[j].kind.Cast?
  }

  lemma {:induction false} SweepAddsNoSlot(code: Code, k: nat, t: Tables)
    requires NoAddressing(code.insts) && k <= |code.insts| && t.slots == map[]
    ensures Sweep(code, k, t).slots == map[]
  {
    if k > 0 { SweepAddsNoSlot(code, k - 1, t); }
  }

  lemma {:induction false} RoundsAddNoSlot(code: Code, n: nat)
    requires NoAddressing(code.insts)
    ensures Rounds(code, n, InitialTables(code)).slots == map[]
  {
    if n > 0 {
      RoundsAddNoSlot(code, n - 1);
      SweepAddsNoSlot(code, |code.insts|, Rounds(code, n - 1, InitialTables(code)));
    }
  }

  lemma NoSlotForCell()
    ensures
      var code := CodeOf(SkippingModule(Local("cb")), Skipping(Local("cb")));
      Solved(code).PointerSlot(code, Local("a")) == None
  {
    var code := CodeOf(SkippingModule(Local("cb")), Skipping(Local("cb")));
    SkippingFlat(Local("cb"));
    RoundsAddNoSlot(code, |code.insts| + 1);
  }

  /** A register function the analysis reports as retaining on every path can return having stored only an unwritten cell. */
  lemma RetainingNothing(a: ForeignAnalysis) returns (r: Run)
    requires Describes(SkippingModule(Local("cb")), SkippingRoles(), a)
    ensures a.pathCompatibility == RetainOnEveryPath && SLOT_G in a.slots
    ensures SsaForm(SkippingModule(Local("cb")), Skipping(Local("cb"))) && WellPlaced(Skipping(Local("cb")))
    ensures StoresOnlyNothing(SkippingModule(Local("cb")), Skipping(Local("cb")), r, SLOT_G)
    ensures forall index: nat :: TokenFree(Skipping(Local("cb")), r, index)
  {
    var m, f := SkippingModule(Local("cb")), Skipping(Local("cb"));
    SkippingShape(Local("cb"));
    SkippingFound(Local("cb"));
    assert DescribesEntry(m, f, SkippingRoles(), a);
    SkippingCfg(Local("cb"));
    FinalStoreRetains();
    LastBlockForced(Local("cb"));
    assert InRange(f, SkippingRoles(), 0);
    assert SlotRetained(m, f, SkippingRoles(), SLOT_G);
    forall index, inst, slot | InRange(f, SkippingRoles(), index) && RetainedBy(CodeOf(m, f), 0, index, inst, slot)
      ensures inst.block in ForcedBlocks(f)
    {
      OnlyFinalRetains(index, inst, slot);
    }
    assert RetainsUnconditionally(m, f, SkippingRoles());
    r := SkippingRun(Local("cb"));
  }
}
