/** The tables against plain structural descent: what each name denotes when operand chains are acyclic. */
module Descent {
  import opened Support
  import opened ForeignIr
  import opened UseIndex
  import opened Dataflow

  /** Everything the three tables say about one name. */
  datatype Meaning = Meaning(origin: ValueOrigin, slot: Option<SlotId>, owned: bool)

  /** The operand whose entries the instruction consults. */
  function Consulted(code: Code, inst: Inst): Option<Operand> {
    match inst.kind
    case Gep(base, _, _) => Some(base)
    case Cast(src) => Some(src)
    case Load(src) => if src.Local? && src.name in code.spills then Some(code.spills[src.name]) else Some(src)
    case _ => None
  }

  /** A topological numbering: every definition consults only earlier-numbered definitions. */
  ghost predicate Acyclic(code: Code, rank: map<string, nat>) {
    && rank.Keys == ResultNames(code.insts)
    && (forall n :: n in rank ==> rank[n] < |code.insts|)
    && (forall j :: 0 <= j < |code.insts| ==> ConsultsEarlier(code, rank, code.insts[j]))
  }

  ghost predicate ConsultsEarlier(code: Code, rank: map<string, nat>, inst: Inst) {
    inst.result.Some? && inst.result.value in rank && Consulted(code, inst).Some?
    && Consulted(code, inst).value.Local? && Consulted(code, inst).value.name in rank ==>
      rank[Consulted(code, inst).value.name] < rank[inst.result.value]
  }

  function Level(rank: map<string, nat>, n: string): nat {
    if n in rank then rank[n] + 1 else 0
  }

  ghost function Definition(code: Code, n: string): nat
    requires n in ResultNames(code.insts)
    ensures Definition(code, n) < |code.insts| && code.insts[Definition(code, n)].result == Some(n)
  {
    var j :| 0 <= j < |code.insts| && code.insts[j].result == Some(n);
    j
  }

  /** A name with no definition is a parameter or nothing. */
  function Undefined(code: Code, n: string): Meaning {
    var origins := InitialOrigins(code.params);
    Meaning(if n in origins then origins[n] else Unknown, None, false)
  }

  function MutableGlobal(code: Code, symbol: string): bool {
    symbol in code.globals && !code.globals[symbol].isConstant
  }

  /** What an operand denotes, given what names denote. */
  function OperandMeaning(code: Code, operand: Operand, local: Meaning): Meaning {
    match operand
    case Null => Meaning(FromNull, None, false)
    case Local(_) => local
    case Global(symbol) =>
      Meaning(Unknown, if MutableGlobal(code, symbol) then Some(SlotId(GlobalSlot(symbol), [])) else None, true)
    case Literal(_) => Meaning(Unknown, None, false)
  }

  /** What an instruction gives its result, from what the consulted operand denotes. */
  function InstMeaning(code: Code, inst: Inst, operand: Meaning): Meaning {
    match inst.kind
    case Gep(base, baseType, indices) =>
      Meaning(Unknown,
              (match operand.slot
               case Some(parent) => Some(SlotId(parent.base, parent.fieldPath + indices))
               case None =>
                 if base.Local? && baseType != "" && baseType[0] == '%' then Some(SlotId(StructField(baseType), indices)) else None),
              operand.owned || operand.origin.Param?)
    case Cast(_) => Meaning(operand.origin, operand.slot, operand.owned || operand.origin.Param?)
    case Load(src) =>
      if src.Local? && src.name in code.spills then Meaning(operand.origin, None, false)
      else Meaning(if operand.slot.Some? then SlotLoad(operand.slot.value) else Unknown, None, false)
    case _ => Meaning(Unknown, None, false)
  }

  /** What a name denotes, by descending from its definition to the operand it consults. */
  ghost function Denote(code: Code, rank: map<string, nat>, n: string): Meaning
    decreases Level(rank, n)
  {
    if n !in rank || n !in ResultNames(code.insts) then Undefined(code, n)
    else
      var inst := code.insts[Definition(code, n)];
      match Consulted(code, inst)
      case None => InstMeaning(code, inst, Meaning(Unknown, None, false))
      case Some(operand) =>
        InstMeaning(code, inst,
                    OperandMeaning(code, operand,
                                   if operand.Local? && Level(rank, operand.name) < Level(rank, n)
                                   then Denote(code, rank, operand.name) else Meaning(Unknown, None, false)))
  }

  /** The tables' entries for a name. */
  function Entry(t: Tables, n: string): Meaning {
    Meaning(t.OriginOf(Local(n)), if n in t.slots then Some(t.slots[n]) else None, n in t.callerOwned)
  }

  /** Entries may be missing or provisional, but never of the wrong sort. */
  ghost predicate Provisional(entry: Meaning, meaning: Meaning) {
    && (entry.slot.Some? ==> meaning.slot.Some?)
    && (entry.owned ==> meaning.owned)
    && (entry.origin.Param? ==> meaning.origin == entry.origin)
  }

  ghost predicate ProvisionalAt(code: Code, rank: map<string, nat>, t: Tables, n: string) {
    Provisional(Entry(t, n), Denote(code, rank, n))
  }

  ghost predicate AllProvisional(code: Code, rank: map<string, nat>, t: Tables)
  {
    && (forall n :: ProvisionalAt(code, rank, t, n))
    && (forall j :: 0 <= j < |code.insts| && HasNoOrigin(code.insts[j]) ==> code.insts[j].result.value !in t.origins)
  }

  /** Address computations and allocations never get an origin entry. */
  predicate HasNoOrigin(inst: Inst) {
    inst.result.Some? && (inst.kind.Gep? || inst.kind.Alloca?)
  }

  /** Every name up to a level has its final entry. */
  ghost predicate FinalUpTo(code: Code, rank: map<string, nat>, t: Tables, r: nat)
  {
    forall n {:trigger Final(code, rank, t, n)} :: Level(rank, n) <= r ==> Final(code, rank, t, n)
  }

  ghost predicate Final(code: Code, rank: map<string, nat>, t: Tables, n: string) {
    Entry(t, n) == Denote(code, rank, n)
  }

  ghost predicate FinalAmong(code: Code, rank: map<string, nat>, t: Tables, r: nat, k: nat)
    requires k <= |code.insts|
  {
    forall j :: 0 <= j < k ==> FinalAt(code, rank, t, r, j)
  }

  ghost predicate FinalAt(code: Code, rank: map<string, nat>, t: Tables, r: nat, j: nat)
    requires j < |code.insts|
  {
    code.insts[j].result.Some? && Level(rank, code.insts[j].result.value) <= r ==>
      Final(code, rank, t, code.insts[j].result.value)
  }

  lemma OtherEntriesStay(code: Code, inst: Inst, t: Tables, n: string)
    requires inst.result != Some(n)
    ensures Entry(Apply(code, inst, t), n) == Entry(t, n)
    ensures n in Apply(code, inst, t).origins <==> n in t.origins
  {
  }

  /** The entries of the consulted operand, as the tables give them now. */
  function ConsultedEntry(code: Code, inst: Inst, t: Tables): Meaning {
    match Consulted(code, inst)
    case None => Meaning(Unknown, None, false)
    case Some(operand) =>
      OperandMeaning(code, operand, if operand.Local? then Entry(t, operand.name) else Meaning(Unknown, None, false))
  }

  /** Entries after a visit: what the operand's entries say, with older ones kept only where that says nothing. */
  ghost predicate Overwrites(inst: Inst, before: Meaning, given: Meaning, after: Meaning) {
    && (inst.kind.Gep? || inst.kind.Alloca? || after.origin == given.origin)
    && after.slot == (if given.slot.Some? then given.slot else before.slot)
    && after.owned == (given.owned || before.owned)
  }

  lemma VisitedGep(code: Code, inst: Inst, t: Tables)
    requires inst.result.Some? && inst.kind.Gep?
    ensures Overwrites(inst, Entry(t, inst.result.value), InstMeaning(code, inst, ConsultedEntry(code, inst, t)),
                       Entry(Apply(code, inst, t), inst.result.value))
  {
    assert [] + inst.kind.indices == inst.kind.indices;
    match inst.kind.base
    case Global(_) =>
    case Local(_) =>
    case _ =>
  }

  lemma VisitedCast(code: Code, inst: Inst, t: Tables)
    requires inst.result.Some? && inst.kind.Cast?
    ensures Overwrites(inst, Entry(t, inst.result.value), InstMeaning(code, inst, ConsultedEntry(code, inst, t)),
                       Entry(Apply(code, inst, t), inst.result.value))
  {
    match inst.kind.src
    case Global(_) =>
    case Local(_) =>
    case _ =>
  }

  lemma VisitedEntry(code: Code, inst: Inst, t: Tables)
    requires inst.result.Some?
    ensures Overwrites(inst, Entry(t, inst.result.value), InstMeaning(code, inst, ConsultedEntry(code, inst, t)),
                       Entry(Apply(code, inst, t), inst.result.value))
  {
    match inst.kind
    case Gep(_, _, _) => VisitedGep(code, inst, t);
    case Cast(_) => VisitedCast(code, inst, t);
    case Load(_) =>
    case _ =>
  }

  lemma DenoteVisited(code: Code, rank: map<string, nat>, j: nat)
    requires Acyclic(code, rank) && SingleAssignment(code) && j < |code.insts| && code.insts[j].result.Some?
    ensures Definition(code, code.insts[j].result.value) == j && code.insts[j].result.value in rank
    ensures Consulted(code, code.insts[j]).Some? && Consulted(code, code.insts[j]).value.Local? ==>
      Level(rank, Consulted(code, code.insts[j]).value.name) < Level(rank, code.insts[j].result.value)
  {
    var d := Definition(code, code.insts[j].result.value);
    assert d == j;
    assert ConsultsEarlier(code, rank, code.insts[j]);
  }

  ghost function ConsultedMeaning(code: Code, rank: map<string, nat>, inst: Inst): Meaning
  {
    match Consulted(code, inst)
    case None => Meaning(Unknown, None, false)
    case Some(operand) =>
      OperandMeaning(code, operand,
                     if operand.Local? then Denote(code, rank, operand.name) else Meaning(Unknown, None, false))
  }

  lemma DenoteUnfolds(code: Code, rank: map<string, nat>, j: nat)
    requires Acyclic(code, rank) && SingleAssignment(code) && j < |code.insts| && code.insts[j].result.Some?
    ensures Denote(code, rank, code.insts[j].result.value)
      == InstMeaning(code, code.insts[j], ConsultedMeaning(code, rank, code.insts[j]))
  {
    DenoteVisited(code, rank, j);
  }

  lemma ProvisionalThrough(code: Code, inst: Inst, now: Meaning, final: Meaning)
    requires Provisional(now, final)
    ensures Provisional(InstMeaning(code, inst, now), InstMeaning(code, inst, final))
  {
  }

  lemma VisitKeepsNameProvisional(code: Code, rank: map<string, nat>, t: Tables, j: nat, n: string)
    requires Acyclic(code, rank) && SingleAssignment(code) && j < |code.insts| && AllProvisional(code, rank, t)
    ensures ProvisionalAt(code, rank, Apply(code, code.insts[j], t), n)
  {
    var inst := code.insts[j];
    assert ProvisionalAt(code, rank, t, n);
    if inst.result == Some(n) {
      VisitedEntry(code, inst, t);
      DenoteUnfolds(code, rank, j);
      ConsultedProvisional(code, rank, t, inst);
      ProvisionalThrough(code, inst, ConsultedEntry(code, inst, t), ConsultedMeaning(code, rank, inst));
      ApplyOrigins(code, inst, t, n);
    } else {
      OtherEntriesStay(code, inst, t, n);
    }
  }

  lemma VisitKeepsProvisional(code: Code, rank: map<string, nat>, t: Tables, j: nat)
    requires Acyclic(code, rank) && SingleAssignment(code) && j < |code.insts| && AllProvisional(code, rank, t)
    ensures AllProvisional(code, rank, Apply(code, code.insts[j], t))
  {
    var inst := code.insts[j];
    var next := Apply(code, inst, t);
    forall n ensures ProvisionalAt(code, rank, next, n) {
      VisitKeepsNameProvisional(code, rank, t, j, n);
    }
    forall i | 0 <= i < |code.insts| && HasNoOrigin(code.insts[i])
      ensures code.insts[i].result.value !in next.origins
    {
      if i != j {
        assert code.insts[i].result != code.insts[j].result;
        OtherEntriesStay(code, inst, t, code.insts[i].result.value);
      }
    }
  }

  lemma ConsultedProvisional(code: Code, rank: map<string, nat>, t: Tables, inst: Inst)
    requires AllProvisional(code, rank, t)
    ensures Provisional(ConsultedEntry(code, inst, t), ConsultedMeaning(code, rank, inst))
  {
    if Consulted(code, inst).Some? && Consulted(code, inst).value.Local? {
      var n := Consulted(code, inst).value.name;
      assert ProvisionalAt(code, rank, t, n);
    }
  }

  /** A definition whose operand is final becomes final when visited. */
  lemma VisitFinalises(code: Code, rank: map<string, nat>, t: Tables, j: nat, r: nat)
    requires Acyclic(code, rank) && SingleAssignment(code) && j < |code.insts| && code.insts[j].result.Some?
    requires r > 0 && AllProvisional(code, rank, t) && FinalUpTo(code, rank, t, r - 1)
    requires Level(rank, code.insts[j].result.value) <= r
    ensures Final(code, rank, Apply(code, code.insts[j], t), code.insts[j].result.value)
  {
    var inst := code.insts[j];
    DenoteVisited(code, rank, j);
    DenoteUnfolds(code, rank, j);
    VisitedEntry(code, inst, t);
    ApplyOrigins(code, inst, t, inst.result.value);
    assert ConsultedEntry(code, inst, t) == ConsultedMeaning(code, rank, inst) by {
      if Consulted(code, inst).Some? && Consulted(code, inst).value.Local? {
        assert Final(code, rank, t, Consulted(code, inst).value.name);
      }
    }
    assert ProvisionalAt(code, rank, t, inst.result.value);
  }

  lemma FinalStays(code: Code, rank: map<string, nat>, t: Tables, j: nat, r: nat, n: string)
    requires Acyclic(code, rank) && SingleAssignment(code) && j < |code.insts|
    requires r > 0 && AllProvisional(code, rank, t) && FinalUpTo(code, rank, t, r - 1)
    requires Level(rank, n) <= r && (Final(code, rank, t, n) || code.insts[j].result == Some(n))
    ensures Final(code, rank, Apply(code, code.insts[j], t), n)
  {
    if code.insts[j].result == Some(n) {
      VisitFinalises(code, rank, t, j, r);
    } else {
      OtherEntriesStay(code, code.insts[j], t, n);
    }
  }

  /** In the sweep that settles level r: everything below is final, and so is what the first k visits reached. */
  ghost predicate MidSweep(code: Code, rank: map<string, nat>, t: Tables, r: nat, k: nat)
    requires r > 0 && k <= |code.insts|
  {
    AllProvisional(code, rank, t) && FinalUpTo(code, rank, t, r - 1) && FinalAmong(code, rank, t, r, k)
  }

  lemma StepKeepsBelow(code: Code, rank: map<string, nat>, t: Tables, j: nat, r: nat)
    requires Acyclic(code, rank) && SingleAssignment(code) && j < |code.insts|
    requires r > 0 && AllProvisional(code, rank, t) && FinalUpTo(code, rank, t, r - 1)
    ensures FinalUpTo(code, rank, Apply(code, code.insts[j], t), r - 1)
  {
    forall n | Level(rank, n) <= r - 1 ensures Final(code, rank, Apply(code, code.insts[j], t), n) {
      assert Final(code, rank, t, n);
      FinalStays(code, rank, t, j, r, n);
    }
  }

  lemma StepFinalAt(code: Code, rank: map<string, nat>, t: Tables, r: nat, k: nat, j: nat)
    requires Acyclic(code, rank) && SingleAssignment(code) && k < |code.insts| && j <= k
    requires r > 0 && AllProvisional(code, rank, t) && FinalUpTo(code, rank, t, r - 1)
    requires j < k ==> FinalAt(code, rank, t, r, j)
    ensures FinalAt(code, rank, Apply(code, code.insts[k], t), r, j)
  {
    if code.insts[j].result.Some? && Level(rank, code.insts[j].result.value) <= r {
      FinalStays(code, rank, t, k, r, code.insts[j].result.value);
    }
  }

  lemma StepAddsOne(code: Code, rank: map<string, nat>, t: Tables, r: nat, last: nat, k: nat, next: Tables)
    requires Acyclic(code, rank) && SingleAssignment(code) && last < |code.insts| && k == last + 1
    requires r > 0 && AllProvisional(code, rank, t) && FinalUpTo(code, rank, t, r - 1)
    requires FinalAmong(code, rank, t, r, last) && next == Apply(code, code.insts[last], t)
    ensures FinalAmong(code, rank, next, r, k)
  {
    forall j | 0 <= j < k ensures FinalAt(code, rank, next, r, j) {
      assert j < last ==> FinalAt(code, rank, t, r, j);
      StepFinalAt(code, rank, t, r, last, j);
    }
  }

  lemma MidSweepStep(code: Code, rank: map<string, nat>, t: Tables, r: nat, last: nat, k: nat) returns (next: Tables)
    requires Acyclic(code, rank) && SingleAssignment(code) && last < |code.insts| && k == last + 1
    requires r > 0 && MidSweep(code, rank, t, r, last)
    ensures next == Apply(code, code.insts[last], t) && MidSweep(code, rank, next, r, k)
  {
    next := Apply(code, code.insts[last], t);
    VisitKeepsProvisional(code, rank, t, last);
    StepKeepsBelow(code, rank, t, last, r);
    StepAddsOne(code, rank, t, r, last, k, next);
  }

  lemma {:induction false} SweepFinalises(code: Code, rank: map<string, nat>, t: Tables, r: nat, k: nat)
    returns (next: Tables)
    requires Acyclic(code, rank) && SingleAssignment(code) && k <= |code.insts|
    requires r > 0 && AllProvisional(code, rank, t) && FinalUpTo(code, rank, t, r - 1)
    ensures next == Sweep(code, k, t) && MidSweep(code, rank, next, r, k)
  {
    next := t;
    for j := 0 to k
      invariant next == Sweep(code, j, t) && MidSweep(code, rank, next, r, j)
    {
      next := MidSweepStep(code, rank, next, r, j, j + 1);
    }
  }

  lemma FinalLevel(code: Code, rank: map<string, nat>, t: Tables, r: nat)
    requires Acyclic(code, rank) && r > 0 && MidSweep(code, rank, t, r, |code.insts|)
    ensures AllProvisional(code, rank, t) && FinalUpTo(code, rank, t, r)
  {
    forall n | Level(rank, n) <= r ensures Final(code, rank, t, n) {
      if n in rank {
        var j := Definition(code, n);
        assert FinalAt(code, rank, t, r, j);
      } else {
        assert Level(rank, n) <= r - 1;
      }
    }
  }

  lemma ParamUndefined(code: Code, rank: map<string, nat>, n: string)
    requires Acyclic(code, rank) && SingleAssignment(code) && n in InitialOrigins(code.params)
    ensures n !in rank && n !in ResultNames(code.insts)
  {
    InitialOriginsExact(code.params);
    assert n in code.params;
  }

  lemma InitialFinal(code: Code, rank: map<string, nat>)
    requires Acyclic(code, rank) && SingleAssignment(code)
    ensures AllProvisional(code, rank, InitialTables(code)) && FinalUpTo(code, rank, InitialTables(code), 0)
  {
    var t := InitialTables(code);
    InitialOriginsExact(code.params);
    forall n
      ensures ProvisionalAt(code, rank, t, n)
      ensures Level(rank, n) <= 0 ==> Final(code, rank, t, n)
    {
      if n in t.origins { ParamUndefined(code, rank, n); }
    }
    forall j | 0 <= j < |code.insts| && HasNoOrigin(code.insts[j])
      ensures code.insts[j].result.value !in t.origins
    {
      if code.insts[j].result.value in t.origins { ParamUndefined(code, rank, code.insts[j].result.value); }
    }
  }

  lemma {:induction false} RoundsFinalise(code: Code, rank: map<string, nat>, r: nat) returns (t: Tables)
    requires Acyclic(code, rank) && SingleAssignment(code)
    ensures t == Rounds(code, r, InitialTables(code))
    ensures AllProvisional(code, rank, t) && FinalUpTo(code, rank, t, r)
  {
    if r == 0 {
      InitialFinal(code, rank);
      t := InitialTables(code);
    } else {
      var before := RoundsFinalise(code, rank, r - 1);
      t := SweepFinalises(code, rank, before, r, |code.insts|);
      FinalLevel(code, rank, t, r);
    }
  }

  /**
   * For acyclic operand chains, in any textual order, the capped rounds compute exactly what structural
   * descent does: origins, slots (provisional ones replaced) and caller ownership.
   */
  lemma TablesEqualDescent(code: Code, rank: map<string, nat>, n: string)
    requires Acyclic(code, rank) && SingleAssignment(code)
    ensures Entry(Solved(code), n) == Denote(code, rank, n)
  {
    var t := RoundsFinalise(code, rank, |code.insts| + 1);
    assert Level(rank, n) <= |code.insts| + 1 && Final(code, rank, t, n);
  }

  /** The solved tables satisfy every instruction's equation at once; nested fields extend their parent's path. */
  lemma SolvedSatisfiesEquations(code: Code, rank: map<string, nat>, j: nat)
    requires Acyclic(code, rank) && SingleAssignment(code) && j < |code.insts| && code.insts[j].result.Some?
    ensures Entry(Solved(code), code.insts[j].result.value)
      == InstMeaning(code, code.insts[j], ConsultedEntry(code, code.insts[j], Solved(code)))
  {
    TablesEqualDescent(code, rank, code.insts[j].result.value);
    DenoteUnfolds(code, rank, j);
    if Consulted(code, code.insts[j]).Some? && Consulted(code, code.insts[j]).value.Local? {
      TablesEqualDescent(code, rank, Consulted(code, code.insts[j]).value.name);
    }
  }

  /** What the queries ask of an operand is what it denotes: its origin, its slot, and whether the caller owns it. */
  lemma OperandsEqualDescent(code: Code, rank: map<string, nat>, operand: Operand)
    requires SingleAssignment(code) && Acyclic(code, rank)
    ensures
      var meaning := OperandMeaning(code, operand,
                                    if operand.Local? then Denote(code, rank, operand.name) else Meaning(Unknown, None, false));
      && Solved(code).OriginOf(operand) == meaning.origin && Solved(code).PointerSlot(code, operand) == meaning.slot
      && (Solved(code).IsCallerOwned(operand) <==> meaning.owned)
  {
    if operand.Local? { TablesEqualDescent(code, rank, operand.name); }
  }
}
