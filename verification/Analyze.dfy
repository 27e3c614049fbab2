/** Q4' and the invocation queries, and the whole analysis of one pair of entries. */
module Analyze {
  import opened Support
  import opened ForeignIr
  import opened UseIndex
  import opened Dataflow
  import opened ForeignFacts
  import opened Retention
  import opened RunPaths
  import opened Queries
  import PathInfo
  import FunctionFlow

  // ---- Q4': does the clear entry clear every slot? ----

  function ClearStrength(evidence: SlotClearEvidence): nat {
    match evidence
    case NotWritten => 0
    case WrittenOnSomePaths => 1
    case WrittenWithUnresolvedValue => 2
    case OverwrittenByArgumentOnEveryPath => 3
    case WritesNullOnEveryPath => 4
  }

  /** What one store says about the slot it writes. */
  function StoreEvidence(t: Tables, forced: set<nat>, roles: ForeignRoleMap, inst: Inst): SlotClearEvidence
    requires inst.kind.Store?
  {
    if inst.block !in forced then WrittenOnSomePaths
    else match t.OriginOf(inst.kind.value)
         case FromNull => WritesNullOnEveryPath
         case Param(index) =>
           if index == roles.callbackArgIndex || Some(index) == roles.userdataArgIndex
           then OverwrittenByArgumentOnEveryPath else WrittenWithUnresolvedValue
         case _ => WrittenWithUnresolvedValue
  }

  ghost predicate StoresSlot(code: Code, inst: Inst, slot: SlotId) {
    inst.kind.Store? && Solved(code).PointerSlot(code, inst.kind.dest) == Some(slot)
  }

  /** One clear question: the code of the clear entry, its unavoidable blocks and the parameter roles. */
  datatype ClearQuestion = ClearQuestion(code: Code, forced: set<nat>, roles: ForeignRoleMap, slots: set<SlotId>) {

    ghost function Strength(inst: Inst): nat
      requires inst.kind.Store?
    {
      ClearStrength(StoreEvidence(Solved(code), forced, roles, inst))
    }

    /** The first store to the slot that is as strong as this, with its text. */
    ghost predicate FirstAt(list: seq<Inst>, slot: SlotId, found: (SlotClearEvidence, string), i: nat) {
      && i < |list| && StoresSlot(code, list[i], slot)
      && found == (StoreEvidence(Solved(code), forced, roles, list[i]), list[i].text)
      && forall j :: 0 <= j < i && StoresSlot(code, list[j], slot) ==> Strength(list[j]) < ClearStrength(found.0)
    }

    /** The evidence and the text are those of the first strongest store to the slot. */
    ghost predicate StrongestFor(list: seq<Inst>, slot: SlotId, found: (SlotClearEvidence, string)) {
      && (exists i: nat :: FirstAt(list, slot, found, i))
      && (forall inst :: inst in list && StoresSlot(code, inst, slot) ==> Strength(inst) <= ClearStrength(found.0))
    }

    ghost predicate WrittenBy(list: seq<Inst>, slot: SlotId) {
      exists inst :: inst in list && StoresSlot(code, inst, slot)
    }

    /** The table holds, for each written slot of interest, its strongest evidence so far. */
    ghost predicate Best(list: seq<Inst>, best: map<SlotId, (SlotClearEvidence, string)>) {
      && (forall slot :: slot in best <==> slot in slots && WrittenBy(list, slot))
      && (forall slot :: slot in best ==> StrongestFor(list, slot, best[slot]))
    }

    lemma BestStart()
      ensures Best([], map[])
    {
    }

    function Better(best: map<SlotId, (SlotClearEvidence, string)>, slot: SlotId, found: (SlotClearEvidence, string))
      : map<SlotId, (SlotClearEvidence, string)>
    {
      if slot !in best || ClearStrength(found.0) > ClearStrength(best[slot].0) then best[slot := found] else best
    }

    ghost function FoundIn(inst: Inst): (SlotClearEvidence, string)
      requires inst.kind.Store?
    {
      (StoreEvidence(Solved(code), forced, roles, inst), inst.text)
    }

    lemma StrongestStep(list: seq<Inst>, inst: Inst, slot: SlotId, old_: (SlotClearEvidence, string))
      requires StoresSlot(code, inst, slot)
      requires WrittenBy(list, slot) ==> StrongestFor(list, slot, old_)
      ensures StrongestFor(list + [inst], slot,
        if WrittenBy(list, slot) && Strength(inst) <= ClearStrength(old_.0) then old_ else FoundIn(inst))
    {
      var more := list + [inst];
      if WrittenBy(list, slot) && Strength(inst) <= ClearStrength(old_.0) {
        var i: nat :| FirstAt(list, slot, old_, i);
        assert FirstAt(more, slot, old_, i);
      } else {
        forall j | 0 <= j < |list| && StoresSlot(code, more[j], slot) ensures Strength(more[j]) < Strength(inst) {
          assert list[j] in list;
        }
        assert FirstAt(more, slot, FoundIn(inst), |list|);
      }
      assert inst in more;
    }

    lemma OtherSlotStep(list: seq<Inst>, inst: Inst, slot: SlotId)
      requires !StoresSlot(code, inst, slot)
      ensures WrittenBy(list + [inst], slot) <==> WrittenBy(list, slot)
      ensures forall found :: StrongestFor(list, slot, found) ==> StrongestFor(list + [inst], slot, found)
    {
      if WrittenBy(list, slot) {
        var writer :| writer in list && StoresSlot(code, writer, slot);
        assert writer in list + [inst];
      }
      forall found | StrongestFor(list, slot, found) ensures StrongestFor(list + [inst], slot, found) {
        var i: nat :| FirstAt(list, slot, found, i);
        assert FirstAt(list + [inst], slot, found, i);
      }
    }

    lemma BestSkip(list: seq<Inst>, best: map<SlotId, (SlotClearEvidence, string)>, inst: Inst)
      requires Best(list, best)
      requires forall slot :: slot in slots ==> !StoresSlot(code, inst, slot)
      ensures Best(list + [inst], best)
    {
      forall slot | slot in slots
        ensures WrittenBy(list + [inst], slot) <==> WrittenBy(list, slot)
        ensures slot in best ==> StrongestFor(list + [inst], slot, best[slot])
      {
        OtherSlotStep(list, inst, slot);
      }
    }

    lemma BestStep(list: seq<Inst>, best: map<SlotId, (SlotClearEvidence, string)>, inst: Inst, slot: SlotId)
      requires Best(list, best) && slot in slots && StoresSlot(code, inst, slot)
      ensures Best(list + [inst], Better(best, slot, FoundIn(inst)))
    {
      assert inst in list + [inst];
      StrongestStep(list, inst, slot, if slot in best then best[slot] else FoundIn(inst));
      forall other | other in slots && other != slot
        ensures WrittenBy(list + [inst], other) <==> WrittenBy(list, other)
        ensures other in best ==> StrongestFor(list + [inst], other, best[other])
      {
        OtherSlotStep(list, inst, other);
      }
    }
  }

  lemma StrongStoreClears(m: IrModule, f: Function, q: ClearQuestion, inst: Inst, slot: SlotId)
    requires q.code == CodeOf(m, f) && q.forced == PathInfo.ForcedBlocks(f)
    requires inst in q.code.insts && StoresSlot(q.code, inst, slot)
    ensures q.Strength(inst) >= 3 <==> ClearingStore(m, f, q.roles, inst, slot)
  {
  }

  /** The strongest evidence clears a slot exactly when some store clears it on every path. */
  lemma StrongestClears(m: IrModule, f: Function, q: ClearQuestion, slot: SlotId, found: (SlotClearEvidence, string))
    requires q.code == CodeOf(m, f) && q.forced == PathInfo.ForcedBlocks(f)
    requires q.StrongestFor(q.code.insts, slot, found)
    ensures ClearStrength(found.0) >= 3 <==> Cleared(m, f, q.roles, slot)
  {
    var i: nat :| q.FirstAt(q.code.insts, slot, found, i);
    var writer := q.code.insts[i];
    StrongStoreClears(m, f, q, writer, slot);
    if Cleared(m, f, q.roles, slot) {
      var inst :| ClearingStore(m, f, q.roles, inst, slot);
      assert StoresSlot(q.code, inst, slot);
      StrongStoreClears(m, f, q, inst, slot);
    }
  }

  /** The recorded evidence for a slot, in the form the report uses. */
  function EvidenceFor(best: map<SlotId, (SlotClearEvidence, string)>, slot: SlotId): SlotClearEvidence {
    if slot in best then best[slot].0 else NotWritten
  }

  lemma ClearedWrites(m: IrModule, f: Function, roles: ForeignRoleMap, slot: SlotId)
    ensures Cleared(m, f, roles, slot) ==> !Untouched(m, f, slot)
  {
    if inst :| ClearingStore(m, f, roles, inst, slot) {
      assert WritesSlot(CodeOf(m, f), inst, slot);
    }
  }

  lemma UntouchedIffUnwritten(m: IrModule, f: Function, q: ClearQuestion, slot: SlotId)
    requires q.code == CodeOf(m, f)
    ensures Untouched(m, f, slot) <==> !q.WrittenBy(q.code.insts, slot)
  {
    if q.WrittenBy(q.code.insts, slot) {
      var writer :| writer in q.code.insts && StoresSlot(q.code, writer, slot);
      assert WritesSlot(q.code, writer, slot);
    }
  }

  /** What the collected evidence says about one slot. */
  ghost predicate Decides(m: IrModule, f: Function, roles: ForeignRoleMap,
                          best: map<SlotId, (SlotClearEvidence, string)>, slot: SlotId) {
    && (EvidenceFor(best, slot) == NotWritten <==> Untouched(m, f, slot))
    && (ClearStrength(EvidenceFor(best, slot)) >= 3 <==> Cleared(m, f, roles, slot))
  }

  /** A slot that some store writes has evidence other than NotWritten. */
  lemma BestIsWritten(q: ClearQuestion, slot: SlotId, found: (SlotClearEvidence, string))
    requires q.StrongestFor(q.code.insts, slot, found)
    ensures found.0 != NotWritten && q.WrittenBy(q.code.insts, slot)
  {
  }

  lemma BestDecides(m: IrModule, f: Function, q: ClearQuestion, best: map<SlotId, (SlotClearEvidence, string)>, slot: SlotId)
    requires q.code == CodeOf(m, f) && q.forced == PathInfo.ForcedBlocks(f)
    requires q.Best(q.code.insts, best) && slot in q.slots
    ensures Decides(m, f, q.roles, best, slot)
  {
    UntouchedIffUnwritten(m, f, q, slot);
    if slot in best {
      StrongestClears(m, f, q, slot, best[slot]);
      BestIsWritten(q, slot, best[slot]);
    } else {
      ClearedWrites(m, f, q.roles, slot);
    }
  }

  predicate ClearsFully(evidence: SlotClearEvidence) {
    evidence == WritesNullOnEveryPath || evidence == OverwrittenByArgumentOnEveryPath
  }

  function ClearVerdict(leavesPopulated: bool, partial: bool, allCleared: bool): ForeignClear {
    if leavesPopulated then MayLeaveSlotPopulated
    else if partial then ClearUnresolved
    else if allCleared then ClearsOnAllPaths
    else ClearUnresolved
  }

  function VerdictOf(slots: set<SlotId>, best: map<SlotId, (SlotClearEvidence, string)>): ForeignClear {
    ClearVerdict(
      exists slot :: slot in slots && EvidenceFor(best, slot) == NotWritten,
      exists slot :: slot in slots && EvidenceFor(best, slot) == WrittenOnSomePaths,
      forall slot :: slot in slots ==> ClearsFully(EvidenceFor(best, slot)))
  }

  lemma ClearDecided(m: IrModule, roles: ForeignRoleMap, slots: set<SlotId>, f: Function,
                     best: map<SlotId, (SlotClearEvidence, string)>)
    requires ClearDecidable(m, roles, slots, f)
    requires forall slot :: slot in slots ==> Decides(m, f, roles, best, slot)
    ensures ClearDescribed(m, roles, slots, VerdictOf(slots, best))
  {
    assert forall g :: ClearDecidable(m, roles, slots, g) ==> g == f;
    forall slot | slot in slots
      ensures ClearsFully(EvidenceFor(best, slot)) <==> Cleared(m, f, roles, slot)
      ensures EvidenceFor(best, slot) == NotWritten <==> Untouched(m, f, slot)
    {
      assert Decides(m, f, roles, best, slot);
    }
  }

  ghost predicate PartialBoundary(sites: seq<ClearSite>, symbol: string, b: AnalysisBoundary) {
    && b.symbol == symbol && b.reason == ClearOnlyOnSomePaths
    && exists site :: site in sites && site.evidence == WrittenOnSomePaths && b.instruction == site.instruction
  }

  /** One boundary for each slot that only some paths write. */
  method PartialBoundaries(sites: seq<ClearSite>, symbol: string) returns (boundaries: seq<AnalysisBoundary>)
    ensures forall b :: b in boundaries <==> PartialBoundary(sites, symbol, b)
  {
    boundaries := [];
    for k := 0 to |sites|
      invariant forall b :: b in boundaries <==> PartialBoundary(sites[..k], symbol, b)
    {
      assert sites[..k + 1] == sites[..k] + [sites[k]];
      if sites[k].evidence == WrittenOnSomePaths {
        boundaries := boundaries + [AnalysisBoundary(symbol, ClearOnlyOnSomePaths, sites[k].instruction)];
      }
    }
    assert sites[..|sites|] == sites;
  }

  /** Collects the strongest evidence for every slot of interest. */
  method CollectEvidence(q: ClearQuestion, flow: FunctionFlow.FunctionFlow)
    returns (best: map<SlotId, (SlotClearEvidence, string)>)
    requires Prepared(flow) && q.code == flow.code
    ensures q.Best(q.code.insts, best)
  {
    best := map[];
    q.BestStart();
    for k := 0 to |q.code.insts|
      invariant q.Best(q.code.insts[..k], best)
    {
      var inst := q.code.insts[k];
      assert q.code.insts[..k + 1] == q.code.insts[..k] + [inst];
      if inst.kind.Store? {
        var slot := flow.Contents().PointerSlot(q.code, inst.kind.dest);
        if slot.Some? && slot.value in q.slots {
          q.BestStep(q.code.insts[..k], best, inst, slot.value);
          best := q.Better(best, slot.value, (StoreEvidence(flow.Contents(), q.forced, q.roles, inst), inst.text));
          continue;
        }
      }
      q.BestSkip(q.code.insts[..k], best, inst);
    }
    assert q.code.insts[..|q.code.insts|] == q.code.insts;
  }

  function SiteFor(best: map<SlotId, (SlotClearEvidence, string)>, symbol: string, slot: SlotId): ClearSite {
    ClearSite(slot, EvidenceFor(best, slot), symbol, if slot in best then Some(best[slot].1) else None)
  }

  /** One site per slot, with its strongest evidence. */
  method ReportSites(slots: set<SlotId>, best: map<SlotId, (SlotClearEvidence, string)>, symbol: string)
    returns (sites: seq<ClearSite>)
    ensures forall site :: site in sites <==> site.slot in slots && site == SiteFor(best, symbol, site.slot)
    ensures |sites| == |slots|
  {
    sites := [];
    var remaining := slots;
    while remaining != {}
      invariant remaining <= slots
      invariant forall site :: site in sites <==> site.slot in slots - remaining && site == SiteFor(best, symbol, site.slot)
      invariant |sites| + |remaining| == |slots|
      decreases remaining
    {
      var slot :| slot in remaining;
      sites := sites + [SiteFor(best, symbol, slot)];
      remaining := remaining - {slot};
    }
  }

  /** What one store by itself says about the slot it writes. */
  ghost predicate StoreSays(q: ClearQuestion, inst: Inst, evidence: SlotClearEvidence)
    requires inst.kind.Store?
  {
    var origin := Solved(q.code).OriginOf(inst.kind.value);
    var argument := origin == Param(q.roles.callbackArgIndex)
      || (q.roles.userdataArgIndex.Some? && origin == Param(q.roles.userdataArgIndex.value));
    match evidence
    case NotWritten => false
    case WrittenOnSomePaths => inst.block !in q.forced
    case WrittenWithUnresolvedValue => inst.block in q.forced && origin != FromNull && !argument
    case OverwrittenByArgumentOnEveryPath => inst.block in q.forced && argument
    case WritesNullOnEveryPath => inst.block in q.forced && origin == FromNull
  }

  /** The store at this place is the first to the slot that says so, and has this text. */
  ghost predicate FirstSaysAt(q: ClearQuestion, slot: SlotId, evidence: SlotClearEvidence, text: string, i: nat) {
    var insts := q.code.insts;
    && i < |insts| && StoresSlot(q.code, insts[i], slot) && StoreSays(q, insts[i], evidence) && insts[i].text == text
    && forall j :: 0 <= j < i && StoresSlot(q.code, insts[j], slot) ==> !StoreSays(q, insts[j], evidence)
  }

  ghost predicate SaidBy(q: ClearQuestion, slot: SlotId, evidence: SlotClearEvidence, text: string) {
    exists i: nat :: FirstSaysAt(q, slot, evidence, text, i)
  }

  ghost predicate Said(q: ClearQuestion, slot: SlotId, evidence: SlotClearEvidence) {
    exists inst :: inst in q.code.insts && StoresSlot(q.code, inst, slot) && StoreSays(q, inst, evidence)
  }

  /**
   * What each label means: null on every path if some store says so; otherwise an argument on every path; otherwise an
   * unresolved value; a slot that only some paths write has no store in an unavoidable block.
   */
  ghost predicate LabelFits(q: ClearQuestion, slot: SlotId, evidence: SlotClearEvidence, text: Option<string>) {
    if evidence == NotWritten then text.None? && !q.WrittenBy(q.code.insts, slot)
    else
      && text.Some? && SaidBy(q, slot, evidence, text.value)
      && (evidence != WritesNullOnEveryPath ==> !Said(q, slot, WritesNullOnEveryPath))
      && (evidence in {WrittenWithUnresolvedValue, WrittenOnSomePaths} ==> !Said(q, slot, OverwrittenByArgumentOnEveryPath))
      && (evidence == WrittenOnSomePaths ==> !Said(q, slot, WrittenWithUnresolvedValue))
  }

  lemma EvidenceIsSaid(q: ClearQuestion, inst: Inst)
    requires inst.kind.Store?
    ensures forall evidence :: StoreSays(q, inst, evidence) <==> evidence == StoreEvidence(Solved(q.code), q.forced, q.roles, inst)
  {
  }

  lemma StrongerIsNotSaid(q: ClearQuestion, slot: SlotId, found: (SlotClearEvidence, string), evidence: SlotClearEvidence)
    requires q.StrongestFor(q.code.insts, slot, found) && ClearStrength(evidence) > ClearStrength(found.0)
    ensures !Said(q, slot, evidence)
  {
    forall inst | inst in q.code.insts && StoresSlot(q.code, inst, slot) ensures !StoreSays(q, inst, evidence) {
      EvidenceIsSaid(q, inst);
      assert q.Strength(inst) <= ClearStrength(found.0);
    }
  }

  lemma FirstIsSaid(q: ClearQuestion, slot: SlotId, found: (SlotClearEvidence, string))
    requires q.StrongestFor(q.code.insts, slot, found)
    ensures SaidBy(q, slot, found.0, found.1)
  {
    var insts := q.code.insts;
    var i: nat :| q.FirstAt(insts, slot, found, i);
    EvidenceIsSaid(q, insts[i]);
    forall j | 0 <= j < i && StoresSlot(q.code, insts[j], slot) ensures !StoreSays(q, insts[j], found.0) {
      EvidenceIsSaid(q, insts[j]);
      assert q.Strength(insts[j]) < ClearStrength(found.0);
    }
    assert FirstSaysAt(q, slot, found.0, found.1, i);
  }

  lemma StrongestFits(q: ClearQuestion, slot: SlotId, found: (SlotClearEvidence, string))
    requires q.StrongestFor(q.code.insts, slot, found)
    ensures LabelFits(q, slot, found.0, Some(found.1))
  {
    FirstIsSaid(q, slot, found);
    BestIsWritten(q, slot, found);
    forall evidence | ClearStrength(evidence) > ClearStrength(found.0) ensures !Said(q, slot, evidence) {
      StrongerIsNotSaid(q, slot, found, evidence);
    }
  }

  /** The site of a slot of interest carries the label that fits, with the text of a store that says so. */
  ghost predicate ClearSiteFits(q: ClearQuestion, symbol: string, site: ClearSite) {
    site.slot in q.slots && site.symbol == symbol && LabelFits(q, site.slot, site.evidence, site.instruction)
  }

  ghost function QuestionOf(m: IrModule, f: Function, roles: ForeignRoleMap, slots: set<SlotId>): ClearQuestion {
    ClearQuestion(CodeOf(m, f), PathInfo.ForcedBlocks(f), roles, slots)
  }

  /** One fitting site for each slot, and a boundary for each slot only some paths write. */
  ghost predicate ClearReported(m: IrModule, f: Function, roles: ForeignRoleMap, slots: set<SlotId>, sites: seq<ClearSite>,
                                boundaries: seq<AnalysisBoundary>) {
    && (forall site <- sites :: ClearSiteFits(QuestionOf(m, f, roles, slots), f.name, site))
    && (forall slot <- slots :: exists site <- sites :: site.slot == slot) && |sites| == |slots|
    && (forall b :: b in boundaries <==> PartialBoundary(sites, f.name, b))
  }

  /** Why there is no answer about clearing. */
  ghost predicate ClearRefused(m: IrModule, roles: ForeignRoleMap, slots: set<SlotId>, boundaries: seq<AnalysisBoundary>) {
    if roles.clearSymbol.None? then boundaries == [AnalysisBoundary(roles.registerSymbol, NoClearEntryDeclared, None)]
    else
      var symbol := roles.clearSymbol.value;
      && (Unnamed(m, symbol) ==> boundaries == [AnalysisBoundary(symbol, SymbolNotDefined, None)])
      && (!Unnamed(m, symbol) && slots == {} ==> boundaries == [])
      && (!Unnamed(m, symbol) && slots != {} ==> boundaries == [AnalysisBoundary(symbol, ControlFlowIncomplete, None)])
  }

  /** The sites and boundaries that go with the clear answer. */
  ghost predicate ClearReport(m: IrModule, roles: ForeignRoleMap, slots: set<SlotId>, sites: seq<ClearSite>,
                              boundaries: seq<AnalysisBoundary>) {
    && (forall f :: ClearDecidable(m, roles, slots, f) ==> ClearReported(m, f, roles, slots, sites, boundaries))
    && ((forall f :: !ClearDecidable(m, roles, slots, f)) ==> sites == [] && ClearRefused(m, roles, slots, boundaries))
  }

  lemma SitesFit(q: ClearQuestion, symbol: string, best: map<SlotId, (SlotClearEvidence, string)>, sites: seq<ClearSite>)
    requires q.Best(q.code.insts, best)
    requires forall site :: site in sites <==> site.slot in q.slots && site == SiteFor(best, symbol, site.slot)
    ensures forall site <- sites :: ClearSiteFits(q, symbol, site)
    ensures forall slot <- q.slots :: exists site <- sites :: site.slot == slot
  {
    forall slot <- best ensures LabelFits(q, slot, best[slot].0, Some(best[slot].1)) {
      StrongestFits(q, slot, best[slot]);
    }
    forall slot <- q.slots ensures exists site <- sites :: site.slot == slot {
      assert SiteFor(best, symbol, slot) in sites;
    }
  }

  lemma ClearAnswered(m: IrModule, roles: ForeignRoleMap, slots: set<SlotId>, f: Function,
                      best: map<SlotId, (SlotClearEvidence, string)>, sites: seq<ClearSite>, boundaries: seq<AnalysisBoundary>)
    requires ClearDecidable(m, roles, slots, f) && QuestionOf(m, f, roles, slots).Best(Insts(f), best)
    requires forall site :: site in sites <==> site.slot in slots && site == SiteFor(best, f.name, site.slot)
    requires |sites| == |slots| && forall b :: b in boundaries <==> PartialBoundary(sites, f.name, b)
    ensures ClearDescribed(m, roles, slots, VerdictOf(slots, best)) && ClearReport(m, roles, slots, sites, boundaries)
  {
    var q := QuestionOf(m, f, roles, slots);
    FindFunctionIff(m, roles.clearSymbol.value);
    SitesFit(q, f.name, best, sites);
    forall slot | slot in slots ensures Decides(m, f, roles, best, slot) {
      BestDecides(m, f, q, best, slot);
    }
    ClearDecided(m, roles, slots, f, best);
  }

  lemma ClearNotAnswered(m: IrModule, roles: ForeignRoleMap, slots: set<SlotId>, boundaries: seq<AnalysisBoundary>)
    requires forall f :: !ClearDecidable(m, roles, slots, f)
    requires ClearRefused(m, roles, slots, boundaries)
    ensures ClearDescribed(m, roles, slots, ClearUnresolved) && ClearReport(m, roles, slots, [], boundaries)
  {
  }

  lemma UnreadableClear(m: IrModule, roles: ForeignRoleMap, slots: set<SlotId>, f: Function)
    requires roles.clearSymbol.Some? && FindFunction(m, roles.clearSymbol.value) == Some(f) && slots != {} && !PathInfo.CompleteCfg(f)
    ensures
      var boundaries := [AnalysisBoundary(f.name, ControlFlowIncomplete, None)];
      ClearDescribed(m, roles, slots, ClearUnresolved) && ClearReport(m, roles, slots, [], boundaries)
  {
    FindFunctionIff(m, roles.clearSymbol.value);
    ClearNotAnswered(m, roles, slots, [AnalysisBoundary(f.name, ControlFlowIncomplete, None)]);
  }

  method AnalyzeClear(m: IrModule, roles: ForeignRoleMap, slots: set<SlotId>)
    returns (clear: ForeignClear, sites: seq<ClearSite>, boundaries: seq<AnalysisBoundary>)
    ensures ClearDescribed(m, roles, slots, clear) && ClearReport(m, roles, slots, sites, boundaries)
  {
    sites, boundaries := [], [];
    if roles.clearSymbol.None? {
      ClearNotAnswered(m, roles, slots, [AnalysisBoundary(roles.registerSymbol, NoClearEntryDeclared, None)]);
      return ClearUnresolved, [], [AnalysisBoundary(roles.registerSymbol, NoClearEntryDeclared, None)];
    }
    var found := FindFunction(m, roles.clearSymbol.value);
    FindFunctionIff(m, roles.clearSymbol.value);
    if found.None? {
      ClearNotAnswered(m, roles, slots, [AnalysisBoundary(roles.clearSymbol.value, SymbolNotDefined, None)]);
      return ClearUnresolved, [], [AnalysisBoundary(roles.clearSymbol.value, SymbolNotDefined, None)];
    }
    if slots == {} {
      ClearNotAnswered(m, roles, slots, []);
      return ClearUnresolved, [], [];
    }
    var f := found.value;
    var flow := new FunctionFlow.FunctionFlow(m, f);
    var paths := PathInfo.ComputePathInfo(f);
    if paths.cfgIncomplete {
      UnreadableClear(m, roles, slots, f);
      return ClearUnresolved, [], [AnalysisBoundary(f.name, ControlFlowIncomplete, None)];
    }
    var q := ClearQuestion(flow.code, paths.onEveryReturningPath, roles, slots);
    var best := CollectEvidence(q, flow);
    sites := ReportSites(slots, best, f.name);
    boundaries := PartialBoundaries(sites, f.name);
    clear := VerdictOf(slots, best);
    ClearAnswered(m, roles, slots, f, best, sites, boundaries);
  }

  // ---- Q3: is the slot called through? ----

  ghost predicate InvokeSiteOf(m: IrModule, slots: set<SlotId>, f: Function, inst: Inst, site: InvokeSite) {
    site.slot in slots && InvokedFrom(m, f, inst, site.slot) && site == InvokeSite(site.slot, f.name, inst.text)
  }

  ghost predicate CallsThrough(m: IrModule, slots: set<SlotId>, f: Function, insts: seq<Inst>, site: InvokeSite) {
    exists inst :: inst in insts && InvokeSiteOf(m, slots, f, inst, site)
  }

  /** An instruction yields at most one site: the slot its callee was loaded from. */
  lemma OneInvokeSite(m: IrModule, slots: set<SlotId>, f: Function, inst: Inst, site: InvokeSite)
    requires f in m.functions && inst in Insts(f)
    ensures InvokeSiteOf(m, slots, f, inst, site) <==>
      (inst.kind.Call? && inst.kind.callee.Local?
      && var origin := Solved(CodeOf(m, f)).OriginOf(inst.kind.callee);
         origin.SlotLoad? && origin.slot in slots && site == InvokeSite(origin.slot, f.name, inst.text))
  {
  }

  method InvokesIn(m: IrModule, f: Function, slots: set<SlotId>) returns (sites: seq<InvokeSite>)
    requires f in m.functions
    ensures forall site :: site in sites <==> CallsThrough(m, slots, f, Insts(f), site)
  {
    var flow := new FunctionFlow.FunctionFlow(m, f);
    var insts := flow.code.insts;
    sites := [];
    for k := 0 to |insts|
      invariant forall site :: site in sites <==> CallsThrough(m, slots, f, insts[..k], site)
    {
      assert insts[..k + 1] == insts[..k] + [insts[k]];
      assert insts[k] in Insts(f);
      ghost var before := sites;
      if insts[k].kind.Call? && insts[k].kind.callee.Local? {
        var origin := flow.Contents().OriginOf(insts[k].kind.callee);
        if origin.SlotLoad? && origin.slot in slots {
          sites := sites + [InvokeSite(origin.slot, f.name, insts[k].text)];
        }
      }
      forall site ensures site in sites <==> site in before || InvokeSiteOf(m, slots, f, insts[k], site) {
        OneInvokeSite(m, slots, f, insts[k], site);
      }
    }
    assert insts[..|insts|] == insts;
  }

  /** Scans the whole module, not only the register entry. */
  method FindSameSlotInvokes(m: IrModule, slots: set<SlotId>) returns (sites: seq<InvokeSite>)
    ensures forall site :: site in sites <==> exists f :: f in m.functions && CallsThrough(m, slots, f, Insts(f), site)
  {
    sites := [];
    if slots == {} {
      return;
    }
    for k := 0 to |m.functions|
      invariant forall site :: site in sites <==>
        exists f :: f in m.functions[..k] && CallsThrough(m, slots, f, Insts(f), site)
    {
      assert m.functions[..k + 1] == m.functions[..k] + [m.functions[k]];
      var found := InvokesIn(m, m.functions[k], slots);
      sites := sites + found;
    }
    assert m.functions[..|m.functions|] == m.functions;
  }

  ghost predicate CallsParam(code: Code, inst: Inst, callback: nat) {
    inst.kind.Call? && inst.kind.callee.Local? && Solved(code).OriginOf(inst.kind.callee) == Param(callback)
  }

  method HasSynchronousInvoke(m: IrModule, f: Function, flow: FunctionFlow.FunctionFlow, callback: nat) returns (found: bool)
    requires flow.Analyzes(m, f)
    ensures found <==> InvokesCallback(m, f, callback)
  {
    var insts := flow.code.insts;
    for k := 0 to |insts|
      invariant forall j :: 0 <= j < k ==> !CallsParam(flow.code, insts[j], callback)
    {
      if insts[k].kind.Call? && insts[k].kind.callee.Local?
         && flow.Contents().OriginOf(insts[k].kind.callee) == Param(callback) {
        assert insts[k] in Insts(f);
        return true;
      }
    }
    return false;
  }

  // ---- Everything together ----

  function Unresolved(boundaries: seq<AnalysisBoundary>): ForeignAnalysis {
    ForeignAnalysis(RetentionUnresolved, InvocationUnresolved, ClearUnresolved, PathUnresolved, None, {}, [], [], [], boundaries)
  }

  function SlotsOf(sites: seq<RetentionSite>): set<SlotId> {
    set site | site in sites :: site.slot
  }

  /** The trace of one subject, if its index is within the parameters. */
  method TraceSubject(m: IrModule, f: Function, flow: FunctionFlow.FunctionFlow, forced: set<nat>,
                      roles: ForeignRoleMap, subject: RetainedSubject, index: nat) returns (trace: ParamTrace)
    requires flow.Analyzes(m, f) && index in TrackedIndices(roles)
    ensures trace.escaped <==> index >= |f.params| || ParamEscapes(CodeOf(m, f), roles.callbackArgIndex, index)
    ensures SubjectSites(m, f, forced, roles, subject, index, trace.sites)
    ensures forall b :: b in trace.boundaries <==> SubjectBoundary(m, f, roles, index, b)
  {
    if index >= |f.params| {
      return ParamTrace([], true, [AnalysisBoundary(f.name, ParamIndexOutOfRange, None)]);
    }
    var q := Question(flow.code, f, forced, subject, roles.callbackArgIndex);
    trace := TraceParam(q, flow, index);
    EscapesMeans(q, index);
    forall site ensures site in trace.sites <==> SubjectSite(m, f, forced, roles, subject, index, site) {
      SiteMeans(q, index, site);
    }
    forall b ensures b in trace.boundaries <==> SubjectBoundary(m, f, roles, index, b) {
      BoundaryMeans(q, index, b);
    }
  }

  lemma BoundaryMeans(q: Question, index: nat, b: AnalysisBoundary)
    ensures q.BoundaryVia(Solved(q.code).ParamAliases(index), b) <==> EscapeBoundary(q.code, q.f.name, q.callback, index, b)
  {
    if q.BoundaryVia(Solved(q.code).ParamAliases(index), b) {
      var alias, inst, reason :| alias in Solved(q.code).ParamAliases(index) && inst in q.code.insts && Mentions(inst, alias)
        && EscapesFor(q.code, inst, alias, q.callback, reason) && b == q.BoundaryOf(reason, inst);
      assert UseOf(q.code, index, alias, inst);
    }
  }

  lemma EscapesMeans(q: Question, index: nat)
    ensures q.EscapesVia(Solved(q.code).ParamAliases(index)) <==> ParamEscapes(q.code, q.callback, index)
  {
    if q.EscapesVia(Solved(q.code).ParamAliases(index)) {
      var alias, inst, reason :| alias in Solved(q.code).ParamAliases(index) && inst in q.code.insts
        && Mentions(inst, alias) && EscapesFor(q.code, inst, alias, q.callback, reason);
      assert UseOf(q.code, index, alias, inst);
    }
  }

  ghost predicate SubjectSite(m: IrModule, f: Function, forced: set<nat>, roles: ForeignRoleMap,
                              subject: RetainedSubject, index: nat, site: RetentionSite) {
    && index < |f.params|
    && exists inst, slot ::
         && RetainedBy(CodeOf(m, f), roles.callbackArgIndex, index, inst, slot)
         && site == RetentionSite(subject, slot, f.name, inst.text, inst.block in forced)
  }

  /** The parameter is missing, or some use of it escapes. */
  ghost predicate SubjectBoundary(m: IrModule, f: Function, roles: ForeignRoleMap, index: nat, b: AnalysisBoundary) {
    if index >= |f.params| then b == AnalysisBoundary(f.name, ParamIndexOutOfRange, None)
    else EscapeBoundary(CodeOf(m, f), f.name, roles.callbackArgIndex, index, b)
  }

  ghost predicate EscapeBoundary(code: Code, symbol: string, callback: nat, index: nat, b: AnalysisBoundary) {
    exists alias, inst, reason ::
      && UseOf(code, index, alias, inst) && EscapesFor(code, inst, alias, callback, reason)
      && b == AnalysisBoundary(symbol, reason, Some(inst.text))
  }

  ghost predicate SubjectSites(m: IrModule, f: Function, forced: set<nat>, roles: ForeignRoleMap,
                               subject: RetainedSubject, index: nat, sites: seq<RetentionSite>) {
    forall site :: site in sites <==> SubjectSite(m, f, forced, roles, subject, index, site)
  }

  lemma SiteMeans(q: Question, index: nat, site: RetentionSite)
    ensures q.SiteVia(Solved(q.code).ParamAliases(index), site) <==>
      exists inst, slot :: RetainedBy(q.code, q.callback, index, inst, slot) && site == q.SiteOf(slot, inst)
  {
    forall inst, slot
      ensures q.RetainsVia(Solved(q.code).ParamAliases(index), inst, slot)
        <==> RetainedBy(q.code, q.callback, index, inst, slot)
    {
      RetainsMeans(q, index, inst, slot);
    }
  }

  lemma RetainsMeans(q: Question, index: nat, inst: Inst, slot: SlotId)
    ensures q.RetainsVia(Solved(q.code).ParamAliases(index), inst, slot)
      <==> RetainedBy(q.code, q.callback, index, inst, slot)
  {
    if q.RetainsVia(Solved(q.code).ParamAliases(index), inst, slot) {
      var alias :| alias in Solved(q.code).ParamAliases(index) && inst in q.code.insts
        && Mentions(inst, alias) && RetainsAlias(q.code, inst, alias, slot);
      assert UseOf(q.code, index, alias, inst);
    }
  }

  /** All recorded sites, of the callback and of the user data. */
  ghost predicate AllSites(m: IrModule, f: Function, forced: set<nat>, roles: ForeignRoleMap, sites: seq<RetentionSite>) {
    forall site :: site in sites <==>
      (SubjectSite(m, f, forced, roles, Callback, roles.callbackArgIndex, site)
      || (roles.userdataArgIndex.Some?
         && SubjectSite(m, f, forced, roles, UserData, roles.userdataArgIndex.value, site)))
  }

  lemma SiteIsRetention(m: IrModule, f: Function, forced: set<nat>, roles: ForeignRoleMap, sites: seq<RetentionSite>, site: RetentionSite)
    returns (index: nat, inst: Inst)
    requires AllSites(m, f, forced, roles, sites) && site in sites
    ensures InRange(f, roles, index) && RetainedBy(CodeOf(m, f), roles.callbackArgIndex, index, inst, site.slot)
    ensures site.onEveryReturningPath <==> inst.block in forced
  {
    index := if SubjectSite(m, f, forced, roles, Callback, roles.callbackArgIndex, site)
      then roles.callbackArgIndex else roles.userdataArgIndex.value;
    var slot;
    inst, slot :| RetainedBy(CodeOf(m, f), roles.callbackArgIndex, index, inst, slot)
      && site == RetentionSite(site.subject, slot, f.name, inst.text, inst.block in forced);
  }

  lemma RetentionIsSite(m: IrModule, f: Function, forced: set<nat>, roles: ForeignRoleMap, sites: seq<RetentionSite>,
                        index: nat, inst: Inst, slot: SlotId) returns (site: RetentionSite)
    requires AllSites(m, f, forced, roles, sites)
    requires InRange(f, roles, index) && RetainedBy(CodeOf(m, f), roles.callbackArgIndex, index, inst, slot)
    ensures site in sites && site.slot == slot && (site.onEveryReturningPath <==> inst.block in forced)
  {
    var subject := if index == roles.callbackArgIndex then Callback else UserData;
    site := RetentionSite(subject, slot, f.name, inst.text, inst.block in forced);
    assert SubjectSite(m, f, forced, roles, subject, index, site);
  }

  lemma SitesMeaning(m: IrModule, f: Function, forced: set<nat>, roles: ForeignRoleMap, sites: seq<RetentionSite>)
    requires AllSites(m, f, forced, roles, sites) && forced == PathInfo.ForcedBlocks(f)
    ensures forall slot :: slot in SlotsOf(sites) <==> SlotRetained(m, f, roles, slot)
    ensures (forall site :: site in sites ==> site.onEveryReturningPath) <==> RetainsUnconditionally(m, f, roles)
  {
    forall slot ensures slot in SlotsOf(sites) <==> SlotRetained(m, f, roles, slot) {
      if slot in SlotsOf(sites) {
        var site :| site in sites && site.slot == slot;
        var index, inst := SiteIsRetention(m, f, forced, roles, sites, site);
      }
      if SlotRetained(m, f, roles, slot) {
        var index, inst :| InRange(f, roles, index) && RetainedBy(CodeOf(m, f), roles.callbackArgIndex, index, inst, slot);
        var site := RetentionIsSite(m, f, forced, roles, sites, index, inst, slot);
      }
    }
    if site :| site in sites && !site.onEveryReturningPath {
      var index, inst := SiteIsRetention(m, f, forced, roles, sites, site);
    } else {
      forall index, inst, slot |
        InRange(f, roles, index) && RetainedBy(CodeOf(m, f), roles.callbackArgIndex, index, inst, slot)
        ensures inst.block in forced
      {
        var site := RetentionIsSite(m, f, forced, roles, sites, index, inst, slot);
      }
    }
  }

  lemma EscapedMeaning(m: IrModule, f: Function, roles: ForeignRoleMap)
    ensures Escaped(m, f, roles) <==>
      (roles.callbackArgIndex >= |f.params| || ParamEscapes(CodeOf(m, f), roles.callbackArgIndex, roles.callbackArgIndex)
      || (roles.userdataArgIndex.Some?
         && (roles.userdataArgIndex.value >= |f.params|
            || ParamEscapes(CodeOf(m, f), roles.callbackArgIndex, roles.userdataArgIndex.value))))
  {
    assert roles.callbackArgIndex in TrackedIndices(roles);
    if roles.userdataArgIndex.Some? { assert roles.userdataArgIndex.value in TrackedIndices(roles); }
  }

  lemma InvokesMeaning(m: IrModule, slots: set<SlotId>, sites: seq<InvokeSite>)
    requires forall site :: site in sites <==> exists f :: f in m.functions && CallsThrough(m, slots, f, Insts(f), site)
    ensures sites != [] <==> SlotInvoked(m, slots)
  {
    if sites != [] {
      assert sites[0] in sites;
      var f :| f in m.functions && CallsThrough(m, slots, f, Insts(f), sites[0]);
      var inst :| inst in Insts(f) && InvokeSiteOf(m, slots, f, inst, sites[0]);
      assert InvokedFrom(m, f, inst, sites[0].slot);
    }
    if SlotInvoked(m, slots) {
      var f, inst, slot :| slot in slots && InvokedFrom(m, f, inst, slot);
      var site := InvokeSite(slot, f.name, inst.text);
      assert InvokeSiteOf(m, slots, f, inst, site);
      assert CallsThrough(m, slots, f, Insts(f), site);
      assert site in sites;
    }
  }

  ghost predicate TraceBoundary(m: IrModule, f: Function, roles: ForeignRoleMap, b: AnalysisBoundary) {
    || SubjectBoundary(m, f, roles, roles.callbackArgIndex, b)
    || (roles.userdataArgIndex.Some? && SubjectBoundary(m, f, roles, roles.userdataArgIndex.value, b))
  }

  /** Q1 for the callback and, if there is one, the user data. */
  method TraceSubjects(m: IrModule, f: Function, flow: FunctionFlow.FunctionFlow, forced: set<nat>, roles: ForeignRoleMap)
    returns (trace: ParamTrace)
    requires flow.Analyzes(m, f)
    ensures trace.escaped <==> Escaped(m, f, roles)
    ensures AllSites(m, f, forced, roles, trace.sites)
    ensures forall b :: b in trace.boundaries <==> TraceBoundary(m, f, roles, b)
  {
    trace := TraceSubject(m, f, flow, forced, roles, Callback, roles.callbackArgIndex);
    if roles.userdataArgIndex.Some? {
      var second := TraceSubject(m, f, flow, forced, roles, UserData, roles.userdataArgIndex.value);
      trace := Joined(trace, second);
    }
    EscapedMeaning(m, f, roles);
  }

  function RetentionVerdict(trace: ParamTrace): ForeignRetention {
    if trace.sites != [] then MayRetain else if trace.escaped then RetentionUnresolved else NoRetain
  }

  function PathVerdict(trace: ParamTrace, cfgIncomplete: bool): ForeignPathCompatibility {
    if cfgIncomplete || trace.sites == [] then PathUnresolved
    else if forall site :: site in trace.sites ==> site.onEveryReturningPath then RetainOnEveryPath
    else RetainOnSomePaths
  }

  function InvocationVerdict(invokeSites: seq<InvokeSite>, synchronous: bool, trace: ParamTrace)
    : (ForeignInvocation, Option<EvidenceGrade>)
  {
    if invokeSites != [] then (MayInvokeAfterReturn, Some(SameSlotInvokeCandidate))
    else if synchronous && SlotsOf(trace.sites) == {} && !trace.escaped then (SynchronousInvokeOnly, None)
    else (InvocationUnresolved, None)
  }

  lemma NoSlotsNoSites(sites: seq<RetentionSite>)
    ensures SlotsOf(sites) == {} <==> sites == []
  {
    if sites != [] { assert sites[0] in sites && sites[0].slot in SlotsOf(sites); }
  }

  lemma NoSlotsNoInvokes(m: IrModule)
    ensures !SlotInvoked(m, {})
  {
  }

  /** The verdicts read off the traces mean what DescribesEntry says. */
  lemma VerdictsDescribe(m: IrModule, roles: ForeignRoleMap, f: Function, trace: ParamTrace, cfgIncomplete: bool,
                         synchronous: bool, a: ForeignAnalysis)
    requires trace.escaped <==> Escaped(m, f, roles)
    requires AllSites(m, f, PathInfo.ForcedBlocks(f), roles, trace.sites)
    requires cfgIncomplete <==> !PathInfo.CompleteCfg(f)
    requires synchronous <==> InvokesCallback(m, f, roles.callbackArgIndex)
    requires a.slots == SlotsOf(trace.sites) && ClearDescribed(m, roles, a.slots, a.clear)
    requires a.invokeSites != [] <==> SlotInvoked(m, a.slots)
    requires a.retention == RetentionVerdict(trace) && a.pathCompatibility == PathVerdict(trace, cfgIncomplete)
    requires (a.invocation, a.invokeEvidence) == InvocationVerdict(a.invokeSites, synchronous, trace)
    ensures DescribesEntry(m, f, roles, a)
  {
    SitesMeaning(m, f, PathInfo.ForcedBlocks(f), roles, trace.sites);
    NoSlotsNoSites(trace.sites);
    NoSlotsNoInvokes(m);
  }

  /** The register entry's control flow is not readable. */
  ghost predicate FlowBoundary(f: Function, b: AnalysisBoundary) {
    !PathInfo.CompleteCfg(f) && b == AnalysisBoundary(f.name, ControlFlowIncomplete, None)
  }

  /** The lists that go with the answers: all sites found, and all the limits met, and nothing else. */
  ghost predicate Reports(m: IrModule, roles: ForeignRoleMap, a: ForeignAnalysis, clearBoundaries: seq<AnalysisBoundary>) {
    && (Unnamed(m, roles.registerSymbol) ==> a == Unresolved([AnalysisBoundary(roles.registerSymbol, SymbolNotDefined, None)]))
    && (forall f :: Named(m, roles.registerSymbol, f) ==> ReportsEntry(m, f, roles, a, clearBoundaries))
  }

  ghost predicate ReportsEntry(m: IrModule, f: Function, roles: ForeignRoleMap, a: ForeignAnalysis,
                               clearBoundaries: seq<AnalysisBoundary>) {
    && AllSites(m, f, PathInfo.ForcedBlocks(f), roles, a.retentionSites)
    && (forall site :: site in a.invokeSites <==> exists g :: g in m.functions && CallsThrough(m, a.slots, g, Insts(g), site))
    && ClearReport(m, roles, a.slots, a.clearSites, clearBoundaries)
    && (forall b :: b in a.boundaries <==> FlowBoundary(f, b) || TraceBoundary(m, f, roles, b) || b in clearBoundaries)
  }

  lemma ListsReport(m: IrModule, roles: ForeignRoleMap, f: Function, trace: ParamTrace, cfgIncomplete: bool,
                    flowBoundaries: seq<AnalysisBoundary>, clearBoundaries: seq<AnalysisBoundary>, a: ForeignAnalysis)
    requires AllSites(m, f, PathInfo.ForcedBlocks(f), roles, trace.sites) && a.retentionSites == trace.sites
    requires forall site :: site in a.invokeSites <==> exists g :: g in m.functions && CallsThrough(m, a.slots, g, Insts(g), site)
    requires ClearReport(m, roles, a.slots, a.clearSites, clearBoundaries)
    requires cfgIncomplete <==> !PathInfo.CompleteCfg(f)
    requires flowBoundaries == if cfgIncomplete then [AnalysisBoundary(f.name, ControlFlowIncomplete, None)] else []
    requires forall b :: b in trace.boundaries <==> TraceBoundary(m, f, roles, b)
    requires a.boundaries == flowBoundaries + trace.boundaries + clearBoundaries
    ensures ReportsEntry(m, f, roles, a, clearBoundaries)
  {
  }

  lemma OnlyEntry(m: IrModule, roles: ForeignRoleMap, f: Function, a: ForeignAnalysis, clearBoundaries: seq<AnalysisBoundary>)
    requires FindFunction(m, roles.registerSymbol) == Some(f)
    requires DescribesEntry(m, f, roles, a) && ReportsEntry(m, f, roles, a, clearBoundaries)
    ensures Describes(m, roles, a) && Reports(m, roles, a, clearBoundaries)
  {
    FindFunctionIff(m, roles.registerSymbol);
  }

  lemma EntryAnswered(m: IrModule, roles: ForeignRoleMap, f: Function, trace: ParamTrace, cfgIncomplete: bool,
                      synchronous: bool, clearBoundaries: seq<AnalysisBoundary>, a: ForeignAnalysis)
    requires FindFunction(m, roles.registerSymbol) == Some(f)
    requires trace.escaped <==> Escaped(m, f, roles)
    requires AllSites(m, f, PathInfo.ForcedBlocks(f), roles, trace.sites) && a.retentionSites == trace.sites
    requires forall b :: b in trace.boundaries <==> TraceBoundary(m, f, roles, b)
    requires cfgIncomplete <==> !PathInfo.CompleteCfg(f)
    requires synchronous <==> InvokesCallback(m, f, roles.callbackArgIndex)
    requires a.slots == SlotsOf(trace.sites) && ClearDescribed(m, roles, a.slots, a.clear)
    requires ClearReport(m, roles, a.slots, a.clearSites, clearBoundaries)
    requires forall site :: site in a.invokeSites <==> exists g :: g in m.functions && CallsThrough(m, a.slots, g, Insts(g), site)
    requires a.retention == RetentionVerdict(trace) && a.pathCompatibility == PathVerdict(trace, cfgIncomplete)
    requires (a.invocation, a.invokeEvidence) == InvocationVerdict(a.invokeSites, synchronous, trace)
    requires a.boundaries
          == (if cfgIncomplete then [AnalysisBoundary(f.name, ControlFlowIncomplete, None)] else [])
             + trace.boundaries + clearBoundaries
    ensures Describes(m, roles, a) && Reports(m, roles, a, clearBoundaries)
  {
    InvokesMeaning(m, a.slots, a.invokeSites);
    VerdictsDescribe(m, roles, f, trace, cfgIncomplete, synchronous, a);
    ListsReport(m, roles, f, trace, cfgIncomplete,
                if cfgIncomplete then [AnalysisBoundary(f.name, ControlFlowIncomplete, None)] else [], clearBoundaries, a);
    OnlyEntry(m, roles, f, a, clearBoundaries);
  }

  lemma NoEntry(m: IrModule, roles: ForeignRoleMap, a: ForeignAnalysis)
    requires FindFunction(m, roles.registerSymbol).None?
    requires a == Unresolved([AnalysisBoundary(roles.registerSymbol, SymbolNotDefined, None)])
    ensures Describes(m, roles, a) && Reports(m, roles, a, [])
  {
    FindFunctionIff(m, roles.registerSymbol);
  }

  /** Runs the three queries; each answer means exactly what Describes says. */
  method Analyze(m: IrModule, roles: ForeignRoleMap) returns (a: ForeignAnalysis)
    ensures Describes(m, roles, a) && exists clearBoundaries :: Reports(m, roles, a, clearBoundaries)
  {
    var found := FindFunction(m, roles.registerSymbol);
    if found.None? {
      a := Unresolved([AnalysisBoundary(roles.registerSymbol, SymbolNotDefined, None)]);
      NoEntry(m, roles, a);
      return;
    }
    var f := found.value;
    var flow := new FunctionFlow.FunctionFlow(m, f);
    var paths := PathInfo.ComputePathInfo(f);
    var boundaries := if paths.cfgIncomplete then [AnalysisBoundary(f.name, ControlFlowIncomplete, None)] else [];
    var trace := TraceSubjects(m, f, flow, paths.onEveryReturningPath, roles);
    var slots := SlotsOf(trace.sites);
    var clear, clearSites, clearBoundaries := AnalyzeClear(m, roles, slots);
    var invokeSites := FindSameSlotInvokes(m, slots);
    var synchronous := HasSynchronousInvoke(m, f, flow, roles.callbackArgIndex);
    var (invocation, invokeEvidence) := InvocationVerdict(invokeSites, synchronous, trace);
    a := ForeignAnalysis(RetentionVerdict(trace), invocation, clear, PathVerdict(trace, paths.cfgIncomplete), invokeEvidence,
                         slots, trace.sites, clearSites, invokeSites, boundaries + trace.boundaries + clearBoundaries);
    EntryAnswered(m, roles, f, trace, paths.cfgIncomplete, synchronous, clearBoundaries, a);
  }
}
