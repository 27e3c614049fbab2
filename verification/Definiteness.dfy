/** When a value that carries a parameter or null is really there, and not the content of an unwritten cell. */
module Definiteness {
  import opened Support
  import opened ForeignIr
  import opened UseIndex
  import opened Dataflow
  import opened Semantics
  import opened Invariants
  import opened Walks

  /** The value a rooted origin stands for. */
  function RootValue(o: ValueOrigin): Value {
    if o.Param? then Arg(o.index) else NullPointer
  }

  ghost predicate Rooted(code: Code, operand: Operand) {
    IsRootedOrigin(Solved(code).OriginOf(operand))
  }

  ghost predicate RegisterAgrees(code: Code, s: State, facts: Written, n: string) {
    Rooted(code, Local(n)) ==> (Register(s, n).Uninit? <==> n !in facts.registers)
  }

  ghost predicate CellAgrees(code: Code, s: State, facts: Written, a: string) {
    a in code.spills ==>
      && (a in s.registers <==> a in facts.live)
      && (a in s.registers && s.registers[a].Address? ==> s.registers[a].cell.serial < s.next)
      && (a in facts.filled ==> a in facts.live)
      && (a in facts.live && s.registers[a].Address? && Rooted(code, code.spills[a]) ==>
            (Content(s, s.registers[a].cell).Uninit? <==> a !in facts.filled))
  }

  /** The state is written exactly where the walk says so, as far as rooted values go. */
  ghost predicate Agrees(code: Code, s: State, facts: Written) {
    (forall n :: RegisterAgrees(code, s, facts, n)) && (forall a :: CellAgrees(code, s, facts, a))
  }

  lemma OperandAgrees(code: Code, s: State, facts: Written, operand: Operand)
    requires Agrees(code, s, facts) && Rooted(code, operand)
    ensures Eval(s, operand).Uninit? <==> !OperandReady(facts, operand)
  {
    if operand.Local? { assert RegisterAgrees(code, s, facts, operand.name); }
  }

  /** A rooted copy is unwritten exactly if what it copies is. */
  lemma CopyAgrees(code: Code, s: State, inst: Inst, c: Choice, facts: Written)
    requires Isolated(code, s) && Agrees(code, s, facts)
    requires Copied(code, inst).Some? && Rooted(code, Copied(code, inst).value)
    ensures Result(s, inst, c).Uninit? <==> !CopyReady(code, facts, inst)
  {
    match inst.kind
    case Cast(src) => OperandAgrees(code, s, facts, src);
    case Load(src) =>
      assert CellAgrees(code, s, facts, src.name);
      assert src.name in s.registers ==> s.registers[src.name].Address?;
  }

  lemma RegistersAgree(code: Code, s: State, inst: Inst, c: Choice, facts: Written, n: string)
    requires Sound(code) && InCode(code, inst) && Isolated(code, s) && Agrees(code, s, facts)
    ensures RegisterAgrees(code, Execute(s, inst, c), After(code, facts, inst), n)
  {
    assert RegisterAgrees(code, s, facts, n);
    if inst.result == Some(n) && Rooted(code, Local(n)) {
      ResultOrigin(code, inst);
      CopyAgrees(code, s, inst, c, facts);
    }
  }

  /** Only a store through its own register changes the content of a spill cell. */
  lemma OtherContentStays(code: Code, s: State, inst: Inst, c: Choice, cell: Cell)
    requires Isolated(code, s) && Cautious(code, s, inst, c) && cell.owner in code.spills
    requires !inst.kind.Alloca? && !StoresTo(inst, cell.owner)
    ensures Content(Execute(s, inst, c), cell) == Content(s, cell)
  {
    if inst.kind.Store? {
      assert inst.kind.dest in OperandsOf(inst);
    } else {
      assert cell !in c.writes;
    }
  }

  lemma StoredIsSpilled(code: Code, inst: Inst, a: string)
    requires code.spills == SpillMap(code.insts) && InCode(code, inst) && StoresTo(inst, a) && a in code.spills
    ensures inst.kind.value == code.spills[a]
  {
    var j :| 0 <= j < |code.insts| && code.insts[j] == inst;
    StoresSpillValue(code.insts, a, j);
  }

  lemma SpillKeepsRegister(code: Code, s: State, inst: Inst, c: Choice, a: string)
    requires Sound(code) && InCode(code, inst) && a in code.spills && !Allocates(inst, a)
    ensures a in Execute(s, inst, c).registers <==> a in s.registers
    ensures a in s.registers ==> Execute(s, inst, c).registers[a] == s.registers[a]
  {
    if inst.result == Some(a) { DefinesSpill(code, inst, a); }
  }

  lemma StoreAgrees(code: Code, s: State, inst: Inst, c: Choice, facts: Written, a: string)
    requires Sound(code) && InCode(code, inst) && Isolated(code, s) && Agrees(code, s, facts)
    requires StoresTo(inst, a) && a in code.spills
    ensures CellAgrees(code, Execute(s, inst, c), After(code, facts, inst), a)
  {
    assert CellAgrees(code, s, facts, a);
    SpillKeepsRegister(code, s, inst, c, a);
    StoredIsSpilled(code, inst, a);
    if Rooted(code, code.spills[a]) { OperandAgrees(code, s, facts, inst.kind.value); }
    StoredContentAgrees(code, s, inst, c, facts, a);
  }

  lemma StoredContentAgrees(code: Code, s: State, inst: Inst, c: Choice, facts: Written, a: string)
    requires CellAgrees(code, s, facts, a) && StoresTo(inst, a) && a in code.spills
    requires a in s.registers ==> s.registers[a].Address? && a in Execute(s, inst, c).registers
    requires a in Execute(s, inst, c).registers ==> a in s.registers && Execute(s, inst, c).registers[a] == s.registers[a]
    requires Rooted(code, code.spills[a]) ==> (Eval(s, inst.kind.value).Uninit? <==> !OperandReady(facts, inst.kind.value))
    ensures CellAgrees(code, Execute(s, inst, c), After(code, facts, inst), a)
  {
  }

  lemma AllocaAgrees(code: Code, s: State, inst: Inst, c: Choice, facts: Written, a: string)
    requires Isolated(code, s) && Agrees(code, s, facts) && Allocates(inst, a) && a in code.spills
    ensures CellAgrees(code, Execute(s, inst, c), After(code, facts, inst), a)
  {
    assert CellAgrees(code, s, facts, a);
  }

  lemma ContentStays(code: Code, s: State, inst: Inst, c: Choice, a: string)
    requires Isolated(code, s) && Cautious(code, s, inst, c) && a in code.spills && a in s.registers
    requires !Allocates(inst, a) && !StoresTo(inst, a) && s.registers[a].cell.serial < s.next
    ensures Content(Execute(s, inst, c), s.registers[a].cell) == Content(s, s.registers[a].cell)
  {
    if !inst.kind.Alloca? { OtherContentStays(code, s, inst, c, s.registers[a].cell); }
  }

  lemma UntouchedFacts(code: Code, facts: Written, inst: Inst, a: string)
    requires !Allocates(inst, a) && !StoresTo(inst, a)
    ensures a in After(code, facts, inst).live <==> a in facts.live
    ensures a in After(code, facts, inst).filled <==> a in facts.filled
  {
  }

  lemma UntouchedRegister(code: Code, s: State, inst: Inst, c: Choice, a: string)
    requires Sound(code) && InCode(code, inst) && Isolated(code, s) && Cautious(code, s, inst, c)
    requires a in code.spills && !Allocates(inst, a) && !StoresTo(inst, a)
    requires a in s.registers ==> s.registers[a].Address? && s.registers[a].cell.serial < s.next
    ensures
      var t := Execute(s, inst, c);
      && (a in t.registers <==> a in s.registers) && s.next < t.next
      && (a in s.registers ==>
            t.registers[a] == s.registers[a] && Content(t, s.registers[a].cell) == Content(s, s.registers[a].cell))
  {
    SpillKeepsRegister(code, s, inst, c, a);
    if a in s.registers { ContentStays(code, s, inst, c, a); }
  }

  lemma UntouchedAgrees(code: Code, s: State, inst: Inst, c: Choice, facts: Written, a: string)
    requires Sound(code) && InCode(code, inst) && Isolated(code, s) && Cautious(code, s, inst, c) && CellAgrees(code, s, facts, a)
    requires a in code.spills && !Allocates(inst, a) && !StoresTo(inst, a)
    ensures CellAgrees(code, Execute(s, inst, c), After(code, facts, inst), a)
  {
    UntouchedFacts(code, facts, inst, a);
    UntouchedRegister(code, s, inst, c, a);
    SameCellAgrees(code, s, Execute(s, inst, c), facts, After(code, facts, inst), a);
  }

  lemma SameCellAgrees(code: Code, s: State, t: State, facts: Written, more: Written, a: string)
    requires CellAgrees(code, s, facts, a) && s.next <= t.next
    requires (a in more.live <==> a in facts.live) && (a in more.filled <==> a in facts.filled)
    requires a in t.registers <==> a in s.registers
    requires a in s.registers && s.registers[a].Address? ==>
      t.registers[a] == s.registers[a] && Content(t, s.registers[a].cell) == Content(s, s.registers[a].cell)
    requires a in s.registers && a in code.spills ==> s.registers[a].Address?
    ensures CellAgrees(code, t, more, a)
  {
  }

  lemma CellsAgree(code: Code, s: State, inst: Inst, c: Choice, facts: Written, a: string)
    requires Sound(code) && InCode(code, inst) && Isolated(code, s) && Cautious(code, s, inst, c) && Agrees(code, s, facts)
    ensures CellAgrees(code, Execute(s, inst, c), After(code, facts, inst), a)
  {
    if a in code.spills {
      if StoresTo(inst, a) {
        StoreAgrees(code, s, inst, c, facts, a);
      } else if Allocates(inst, a) {
        AllocaAgrees(code, s, inst, c, facts, a);
      } else {
        assert CellAgrees(code, s, facts, a);
        UntouchedAgrees(code, s, inst, c, facts, a);
      }
    }
  }

  lemma ExecuteAgrees(code: Code, s: State, inst: Inst, c: Choice, facts: Written)
    requires Sound(code) && InCode(code, inst) && Holds(code, s) && AllowedChoice(s, inst, c) && Agrees(code, s, facts)
    ensures Agrees(code, Execute(s, inst, c), After(code, facts, inst))
  {
    StepIsCautious(code, s, inst, c);
    forall n ensures RegisterAgrees(code, Execute(s, inst, c), After(code, facts, inst), n) {
      RegistersAgree(code, s, inst, c, facts, n);
    }
    forall a ensures CellAgrees(code, Execute(s, inst, c), After(code, facts, inst), a) {
      CellsAgree(code, s, inst, c, facts, a);
    }
  }

  lemma SamePlaceAgrees(code: Code, s: State, t: State, facts: Written)
    requires t == s.(block := t.block, index := t.index) && Agrees(code, s, facts)
    ensures Agrees(code, t, facts)
  {
    forall n ensures RegisterAgrees(code, t, facts, n) { assert RegisterAgrees(code, s, facts, n); }
    forall a ensures CellAgrees(code, t, facts, a) { assert CellAgrees(code, s, facts, a); }
  }

  lemma StartAgrees(m: IrModule, f: Function)
    requires SsaForm(m, f)
    ensures Agrees(CodeOf(m, f), Initial(f), Start(CodeOf(m, f)))
  {
    var code := CodeOf(m, f);
    forall n ensures n in Initial(f).registers <==> n in Start(code).registers {
      InitialRegistersExact(f.params, n);
      InitialOriginsExact(f.params);
    }
    forall n ensures RegisterAgrees(code, Initial(f), Start(code), n) {
      InitialRegister(m, f, n);
    }
    forall a ensures CellAgrees(code, Initial(f), Start(code), a) {
      InitialRegister(m, f, a);
    }
  }

  lemma StepAgrees(m: IrModule, f: Function, s: State, c: Choice, t: State, facts: Written)
    requires SsaForm(m, f) && Holds(CodeOf(m, f), s) && Step(f, s, c, t) && Agrees(CodeOf(m, f), s, facts)
    ensures HasPlace(f, PlaceOf(s)) ==> Agrees(CodeOf(m, f), t, After(CodeOf(m, f), facts, InstAt(f, PlaceOf(s))))
    ensures !HasPlace(f, PlaceOf(s)) ==> Agrees(CodeOf(m, f), t, facts)
  {
    var code := CodeOf(m, f);
    if HasInst(f, s) {
      var inst := CurrentInst(f, s);
      var j := CurrentInstListed(f, s);
      ExecuteAgrees(code, s, inst, c, facts);
      SamePlaceAgrees(code, Execute(s, inst, c), t, After(code, facts, inst));
    } else {
      SamePlaceAgrees(code, s, t, facts);
    }
  }

  lemma NextAgrees(m: IrModule, f: Function, r: Run, k: nat)
    requires SsaForm(m, f) && k + 1 < |r.states| && k < |r.choices| && Holds(CodeOf(m, f), r.states[k])
    requires Step(f, r.states[k], r.choices[k], r.states[k + 1])
    requires Agrees(CodeOf(m, f), r.states[k], WrittenAt(f, CodeOf(m, f), Trace(r, k), k))
    ensures Agrees(CodeOf(m, f), r.states[k + 1], WrittenAt(f, CodeOf(m, f), Trace(r, k + 1), k + 1))
  {
    WrittenPrefix(f, CodeOf(m, f), Trace(r, k + 1), Trace(r, k), k);
    assert Trace(r, k + 1)[k] == PlaceOf(r.states[k]);
    StepAgrees(m, f, r.states[k], r.choices[k], r.states[k + 1], WrittenAt(f, CodeOf(m, f), Trace(r, k), k));
  }

  /** In every run the state is written exactly where the walk taken so far says so. */
  lemma {:induction false} RunAgrees(m: IrModule, f: Function, r: Run, k: nat)
    requires SsaForm(m, f) && IsRun(f, r) && k < |r.states|
    ensures Agrees(CodeOf(m, f), r.states[k], WrittenAt(f, CodeOf(m, f), Trace(r, k), k))
  {
    if k == 0 {
      RunStarts(f, r);
      StartAgrees(m, f);
    } else {
      var j := k - 1;
      RunAgrees(m, f, r, j);
      RunHolds(m, f, r, j);
      RunSteps(f, r, j);
      NextAgrees(m, f, r, j);
    }
  }

  /** A rooted operand holds the value of its root exactly if the walk taken so far has written it. */
  lemma ValueIffWritten(m: IrModule, f: Function, r: Run, k: nat, operand: Operand)
    requires SsaForm(m, f) && IsRun(f, r) && k < |r.states| && Rooted(CodeOf(m, f), operand)
    ensures Eval(r.states[k], operand) == RootValue(Solved(CodeOf(m, f)).OriginOf(operand)) <==>
      OperandReady(WrittenAt(f, CodeOf(m, f), Trace(r, k), k), operand)
    ensures Eval(r.states[k], operand).Uninit? <==>
      !OperandReady(WrittenAt(f, CodeOf(m, f), Trace(r, k), k), operand)
  {
    RunAgrees(m, f, r, k);
    RunHolds(m, f, r, k);
    OperandAgrees(CodeOf(m, f), r.states[k], WrittenAt(f, CodeOf(m, f), Trace(r, k), k), operand);
    EvalMatches(CodeOf(m, f), r.states[k], operand);
  }
}
