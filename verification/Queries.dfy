/** The three queries on a module: retention, clearing, and invocation from the same slot. */
module Queries {
  import opened Support
  import opened ForeignIr
  import opened UseIndex
  import opened Dataflow
  import opened Semantics
  import opened ForeignFacts
  import opened Retention
  import opened RunPaths
  import PathInfo
  import FunctionFlow

  // ---- Meaning of the results ----

  function TrackedIndices(roles: ForeignRoleMap): set<nat> {
    {roles.callbackArgIndex} + if roles.userdataArgIndex.Some? then {roles.userdataArgIndex.value} else {}
  }

  ghost predicate UseOf(code: Code, index: nat, alias: string, inst: Inst) {
    alias in Solved(code).ParamAliases(index) && inst in code.insts && Mentions(inst, alias)
  }

  /** Some alias of the parameter is stored by this instruction into this caller-owned slot. */
  ghost predicate RetainedBy(code: Code, callback: nat, index: nat, inst: Inst, slot: SlotId) {
    exists alias :: UseOf(code, index, alias, inst) && RetainsAlias(code, inst, alias, slot)
  }

  ghost predicate ParamEscapes(code: Code, callback: nat, index: nat) {
    exists alias, inst, reason :: UseOf(code, index, alias, inst) && EscapesFor(code, inst, alias, callback, reason)
  }

  ghost predicate InRange(f: Function, roles: ForeignRoleMap, index: nat) {
    index in TrackedIndices(roles) && index < |f.params|
  }

  ghost predicate SlotRetained(m: IrModule, f: Function, roles: ForeignRoleMap, slot: SlotId) {
    exists index, inst :: InRange(f, roles, index) && RetainedBy(CodeOf(m, f), roles.callbackArgIndex, index, inst, slot)
  }

  ghost predicate Escaped(m: IrModule, f: Function, roles: ForeignRoleMap) {
    exists index :: index in TrackedIndices(roles)
      && (index >= |f.params| || ParamEscapes(CodeOf(m, f), roles.callbackArgIndex, index))
  }

  ghost predicate RetainsUnconditionally(m: IrModule, f: Function, roles: ForeignRoleMap) {
    forall index, inst, slot ::
      InRange(f, roles, index) && RetainedBy(CodeOf(m, f), roles.callbackArgIndex, index, inst, slot) ==>
        inst.block in PathInfo.ForcedBlocks(f)
  }

  ghost predicate WritesSlot(code: Code, inst: Inst, slot: SlotId) {
    inst in code.insts && inst.kind.Store? && Solved(code).PointerSlot(code, inst.kind.dest) == Some(slot)
  }

  ghost predicate Untouched(m: IrModule, f: Function, slot: SlotId) {
    forall inst :: !WritesSlot(CodeOf(m, f), inst, slot)
  }

  ghost predicate Cleared(m: IrModule, f: Function, roles: ForeignRoleMap, slot: SlotId) {
    exists inst :: ClearingStore(m, f, roles, inst, slot)
  }

  ghost predicate ClearEntry(m: IrModule, roles: ForeignRoleMap, f: Function) {
    roles.clearSymbol.Some? && Named(m, roles.clearSymbol.value, f)
  }

  /** The clear entry exists, has a readable control flow, and there are slots to clear. */
  ghost predicate ClearDecidable(m: IrModule, roles: ForeignRoleMap, slots: set<SlotId>, f: Function) {
    ClearEntry(m, roles, f) && slots != {} && PathInfo.CompleteCfg(f)
  }

  ghost predicate ClearDescribed(m: IrModule, roles: ForeignRoleMap, slots: set<SlotId>, clear: ForeignClear) {
    && (clear == ClearsOnAllPaths <==>
          exists f :: ClearDecidable(m, roles, slots, f) && forall slot :: slot in slots ==> Cleared(m, f, roles, slot))
    && (clear == MayLeaveSlotPopulated <==>
          exists f, slot :: ClearDecidable(m, roles, slots, f) && slot in slots && Untouched(m, f, slot))
  }

  /** Some function loads the slot and calls what it loaded. */
  ghost predicate InvokedFrom(m: IrModule, f: Function, inst: Inst, slot: SlotId) {
    && f in m.functions && inst in Insts(f) && inst.kind.Call? && inst.kind.callee.Local?
    && Solved(CodeOf(m, f)).OriginOf(inst.kind.callee) == SlotLoad(slot)
  }

  ghost predicate SlotInvoked(m: IrModule, slots: set<SlotId>) {
    exists f, inst, slot :: slot in slots && InvokedFrom(m, f, inst, slot)
  }

  ghost predicate InvokesCallback(m: IrModule, f: Function, callback: nat) {
    exists inst :: inst in Insts(f) && inst.kind.Call? && inst.kind.callee.Local?
      && Solved(CodeOf(m, f)).OriginOf(inst.kind.callee) == Param(callback)
  }

  /** What each answer means when there is no register entry of that name. */
  ghost predicate DescribesNothing(a: ForeignAnalysis) {
    && a.retention == RetentionUnresolved && a.invocation == InvocationUnresolved && a.clear == ClearUnresolved
    && a.pathCompatibility == PathUnresolved && a.invokeEvidence == None && a.slots == {}
  }

  /** What each answer means for a register entry, in terms of the tables and the graph only. */
  ghost predicate DescribesEntry(m: IrModule, f: Function, roles: ForeignRoleMap, a: ForeignAnalysis) {
    && (forall slot :: slot in a.slots <==> SlotRetained(m, f, roles, slot))
    && (a.retention == MayRetain <==> a.slots != {})
    && (a.retention == NoRetain <==> a.slots == {} && !Escaped(m, f, roles))
    && ClearDescribed(m, roles, a.slots, a.clear)
    && (a.invocation == MayInvokeAfterReturn <==> SlotInvoked(m, a.slots))
    && (a.invocation == SynchronousInvokeOnly <==>
          a.slots == {} && !Escaped(m, f, roles) && InvokesCallback(m, f, roles.callbackArgIndex))
    && a.invokeEvidence == (if a.invocation == MayInvokeAfterReturn then Some(SameSlotInvokeCandidate) else None)
    && (a.pathCompatibility == PathUnresolved <==> a.slots == {} || !PathInfo.CompleteCfg(f))
    && (a.pathCompatibility == RetainOnEveryPath <==>
          a.slots != {} && PathInfo.CompleteCfg(f) && RetainsUnconditionally(m, f, roles))
  }

  /** The analysis speaks about the first function that has the register entry's name. */
  ghost predicate Describes(m: IrModule, roles: ForeignRoleMap, a: ForeignAnalysis) {
    && (Unnamed(m, roles.registerSymbol) ==> DescribesNothing(a))
    && (forall f :: Named(m, roles.registerSymbol, f) ==> DescribesEntry(m, f, roles, a))
  }

  // ---- Q1: where does a parameter end up? ----

  datatype ParamTrace = ParamTrace(sites: seq<RetentionSite>, escaped: bool, boundaries: seq<AnalysisBoundary>)

  /** One retention question: the code, the function, its unavoidable blocks, what is traced, the callback index. */
  datatype Question = Question(code: Code, f: Function, forced: set<nat>, subject: RetainedSubject, callback: nat) {

    function SiteOf(slot: SlotId, inst: Inst): RetentionSite {
      RetentionSite(subject, slot, f.name, inst.text, inst.block in forced)
    }

    function BoundaryOf(reason: BoundaryReason, inst: Inst): AnalysisBoundary {
      AnalysisBoundary(f.name, reason, Some(inst.text))
    }

    ghost function Verdict(alias: string, inst: Inst): UseVerdict {
      JudgeUse(code, Solved(code), inst, alias, callback)
    }

    /** What one use adds to the trace. */
    function AddUse(trace: ParamTrace, inst: Inst, verdict: UseVerdict): ParamTrace {
      match verdict
      case Quiet => trace
      case Retains(slot) => trace.(sites := trace.sites + [SiteOf(slot, inst)])
      case Escapes(reason) =>
        trace.(escaped := true, boundaries := trace.boundaries + [BoundaryOf(reason, inst)])
    }

    /** Everything recorded about a list of uses of an alias. */
    ghost function TraceList(alias: string, list: seq<Inst>): ParamTrace {
      if list == [] then ParamTrace([], false, [])
      else
        var last := |list| - 1;
        AddUse(TraceList(alias, list[..last]), list[last], Verdict(alias, list[last]))
    }

    ghost predicate EscapesIn(alias: string, list: seq<Inst>) {
      exists inst, reason :: inst in list && EscapesFor(code, inst, alias, callback, reason)
    }

    ghost predicate SiteIn(alias: string, list: seq<Inst>, site: RetentionSite) {
      exists inst, slot :: inst in list && RetainsAlias(code, inst, alias, slot) && site == SiteOf(slot, inst)
    }

    ghost predicate BoundaryIn(alias: string, list: seq<Inst>, b: AnalysisBoundary) {
      exists inst, reason :: inst in list && EscapesFor(code, inst, alias, callback, reason) && b == BoundaryOf(reason, inst)
    }

    /** The trace reports an escape exactly when some use escapes, and exactly the retaining uses as sites. */
    lemma {:induction false} TraceListExact(alias: string, list: seq<Inst>)
      ensures TraceList(alias, list).escaped <==> EscapesIn(alias, list)
      ensures forall site :: site in TraceList(alias, list).sites <==> SiteIn(alias, list, site)
    {
      if list != [] {
        var last := |list| - 1;
        TraceListExact(alias, list[..last]);
        JudgeUseExact(code, list[last], alias, callback);
        assert list == list[..last] + [list[last]];
        forall site
          ensures SiteIn(alias, list, site) <==> SiteIn(alias, list[..last], site) || SiteIn(alias, [list[last]], site)
        {
        }
      }
    }

    /** Each escaping use, and nothing else, is a boundary. */
    lemma {:induction false} TraceListBoundaries(alias: string, list: seq<Inst>)
      ensures forall b :: b in TraceList(alias, list).boundaries <==> BoundaryIn(alias, list, b)
    {
      if list != [] {
        var last := |list| - 1;
        TraceListBoundaries(alias, list[..last]);
        JudgeUseExact(code, list[last], alias, callback);
        assert list == list[..last] + [list[last]];
        forall b
          ensures BoundaryIn(alias, list, b) <==> BoundaryIn(alias, list[..last], b) || BoundaryIn(alias, [list[last]], b)
        {
        }
      }
    }

    ghost predicate BoundaryVia(aliases: set<string>, b: AnalysisBoundary) {
      exists alias, inst, reason ::
        && alias in aliases && inst in code.insts && Mentions(inst, alias)
        && EscapesFor(code, inst, alias, callback, reason) && b == BoundaryOf(reason, inst)
    }

    ghost predicate EscapesVia(aliases: set<string>) {
      exists alias, inst, reason ::
        alias in aliases && inst in code.insts && Mentions(inst, alias) && EscapesFor(code, inst, alias, callback, reason)
    }

    ghost predicate RetainsVia(aliases: set<string>, inst: Inst, slot: SlotId) {
      exists alias :: alias in aliases && inst in code.insts && Mentions(inst, alias) && RetainsAlias(code, inst, alias, slot)
    }

    ghost predicate SiteVia(aliases: set<string>, site: RetentionSite) {
      exists inst, slot :: RetainsVia(aliases, inst, slot) && site == SiteOf(slot, inst)
    }

    ghost predicate Covers(aliases: set<string>, trace: ParamTrace) {
      && (trace.escaped <==> EscapesVia(aliases))
      && (forall site :: site in trace.sites <==> SiteVia(aliases, site))
      && (forall b :: b in trace.boundaries <==> BoundaryVia(aliases, b))
    }

    ghost predicate AllUses(alias: string, list: seq<Inst>) {
      forall inst :: inst in list <==> inst in code.insts && Mentions(inst, alias)
    }

    lemma OneMoreAlias(aliases: set<string>, trace: ParamTrace, alias: string, list: seq<Inst>)
      requires Covers(aliases, trace) && AllUses(alias, list)
      ensures Covers(aliases + {alias}, Joined(trace, TraceList(alias, list)))
    {
      TraceListExact(alias, list);
      assert EscapesVia(aliases + {alias}) <==> EscapesVia(aliases) || EscapesIn(alias, list);
      forall site
        ensures SiteVia(aliases + {alias}, site) <==> SiteVia(aliases, site) || SiteIn(alias, list, site)
      {
        OneMoreSite(aliases, alias, list, site);
      }
      TraceListBoundaries(alias, list);
      forall b
        ensures BoundaryVia(aliases + {alias}, b) <==> BoundaryVia(aliases, b) || BoundaryIn(alias, list, b)
      {
        OneMoreBoundary(aliases, alias, list, b);
      }
    }

    lemma OneMoreBoundary(aliases: set<string>, alias: string, list: seq<Inst>, b: AnalysisBoundary)
      requires AllUses(alias, list)
      ensures BoundaryVia(aliases + {alias}, b) <==> BoundaryVia(aliases, b) || BoundaryIn(alias, list, b)
    {
    }

    lemma OneMoreSite(aliases: set<string>, alias: string, list: seq<Inst>, site: RetentionSite)
      requires AllUses(alias, list)
      ensures SiteVia(aliases + {alias}, site) <==> SiteVia(aliases, site) || SiteIn(alias, list, site)
    {
      if SiteVia(aliases, site) {
        var inst, slot :| RetainsVia(aliases, inst, slot) && site == SiteOf(slot, inst);
        assert RetainsVia(aliases + {alias}, inst, slot);
      }
      if SiteIn(alias, list, site) {
        var inst, slot :| inst in list && RetainsAlias(code, inst, alias, slot) && site == SiteOf(slot, inst);
        assert RetainsVia(aliases + {alias}, inst, slot);
      }
      if SiteVia(aliases + {alias}, site) {
        var inst, slot :| RetainsVia(aliases + {alias}, inst, slot) && site == SiteOf(slot, inst);
        assert RetainsVia(aliases, inst, slot) || RetainsAlias(code, inst, alias, slot);
      }
    }
  }

  function Joined(a: ParamTrace, b: ParamTrace): ParamTrace {
    ParamTrace(a.sites + b.sites, a.escaped || b.escaped, a.boundaries + b.boundaries)
  }

  ghost predicate Prepared(flow: FunctionFlow.FunctionFlow)
    reads flow
  {
    IsUseIndex(flow.code.insts, |flow.code.insts|, flow.uses) && flow.Contents() == Solved(flow.code)
  }

  method TraceAlias(q: Question, flow: FunctionFlow.FunctionFlow, alias: string) returns (trace: ParamTrace)
    requires Prepared(flow) && q.code == flow.code
    ensures exists list :: q.AllUses(alias, list) && trace == q.TraceList(alias, list)
  {
    var ordinals := UsesOf(flow.uses, alias);
    forall u | 0 <= u < |ordinals|
      ensures ordinals[u] < |q.code.insts| && Mentions(q.code.insts[ordinals[u]], alias)
    {
      UsesAreMentions(q.code.insts, flow.uses, alias, ordinals[u]);
    }
    ghost var list := seq(|ordinals|, u requires 0 <= u < |ordinals| => q.code.insts[ordinals[u]]);
    trace := ParamTrace([], false, []);
    for u := 0 to |ordinals|
      invariant trace == q.TraceList(alias, list[..u])
    {
      var inst := q.code.insts[ordinals[u]];
      assert list[..u + 1][..u] == list[..u];
      trace := q.AddUse(trace, inst, JudgeUse(q.code, flow.Contents(), inst, alias, q.callback));
    }
    assert list[..|ordinals|] == list;
    forall inst | inst in q.code.insts && Mentions(inst, alias) ensures inst in list {
      var k: nat :| k < |q.code.insts| && q.code.insts[k] == inst;
      UsesAreMentions(q.code.insts, flow.uses, alias, k);
      var u :| 0 <= u < |ordinals| && ordinals[u] == k;
      assert list[u] == inst;
    }
  }

  /** Looks at every use of every alias of the parameter. */
  method TraceParam(q: Question, flow: FunctionFlow.FunctionFlow, index: nat) returns (trace: ParamTrace)
    requires Prepared(flow) && q.code == flow.code
    ensures q.Covers(Solved(q.code).ParamAliases(index), trace)
  {
    trace := ParamTrace([], false, []);
    var aliases := flow.Contents().ParamAliases(index);
    var remaining := aliases;
    ghost var done: set<string> := {};
    while remaining != {}
      invariant done + remaining == aliases
      invariant q.Covers(done, trace)
      decreases remaining
    {
      var alias :| alias in remaining;
      var found := TraceAlias(q, flow, alias);
      ghost var list :| q.AllUses(alias, list) && found == q.TraceList(alias, list);
      q.OneMoreAlias(done, trace, alias, list);
      trace := Joined(trace, found);
      remaining := remaining - {alias};
      done := done + {alias};
    }
  }
}
