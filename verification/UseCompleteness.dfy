/** Whether the use lists leave out an instruction whose effect depends on the register. */
module UseCompleteness {
  import opened Support
  import opened ForeignIr
  import opened UseIndex
  import opened Semantics

  /** The two states differ at most in what this register holds. */
  ghost predicate SameBut(s: State, t: State, name: string) {
    t == s.(registers := t.registers) && forall other :: other != name ==> Register(t, other) == Register(s, other)
  }

  /** The instruction may do the same in both states, and leaves them as equal as they were, or equal if it writes the register. */
  ghost predicate SameEffect(s: State, t: State, inst: Inst, c: Choice, name: string) {
    && AllowedChoice(t, inst, c) && SameBut(Execute(s, inst, c), Execute(t, inst, c), name)
    && (inst.result == Some(name) ==> Register(Execute(s, inst, c), name) == Register(Execute(t, inst, c), name))
  }

  /** What the register holds makes a difference to what the instruction may do or does. */
  ghost predicate Matters(inst: Inst, name: string) {
    exists s, t, c :: SameBut(s, t, name) && AllowedChoice(s, inst, c) && !SameEffect(s, t, inst, c, name)
  }

  /** The register is an index of the address computation and not its base. */
  predicate IndexOnly(inst: Inst, name: string) {
    inst.kind.Gep? && ("%" + name) in inst.kind.indices && inst.kind.base != Local(name)
  }

  lemma {:induction false} IndexOperandsExact(indices: seq<string>, name: string)
    ensures Local(name) in IndexOperands(indices) <==> ("%" + name) in indices
  {
    if indices != [] {
      IndexOperandsExact(indices[1..], name);
      assert StartsWithPercent(indices[0]) ==> indices[0] == "%" + indices[0][1..];
      assert ("%" + name)[1..] == name;
    }
  }

  lemma SameValues(s: State, t: State, operands: seq<Operand>, name: string)
    requires SameBut(s, t, name) && Local(name) !in operands
    ensures ValuesOf(s, operands) == ValuesOf(t, operands)
  {
    forall operand <- operands ensures Eval(s, operand) == Eval(t, operand) {}
  }

  lemma SameSupply(s: State, t: State, inst: Inst, name: string)
    requires SameBut(s, t, name) && !Mentions(inst, name) && !IndexOnly(inst, name)
    ensures Supplied(s, inst) == Supplied(t, inst) && Leaks(s, inst) == Leaks(t, inst)
  {
    SameValues(s, t, OperandsOf(inst), name);
    if inst.kind.Gep? {
      assert inst.kind.base in OperandsOf(inst);
      IndexOperandsExact(inst.kind.indices, name);
      SameValues(s, t, IndexOperands(inst.kind.indices), name);
    }
    if inst.kind.Store? { assert inst.kind.value in OperandsOf(inst); }
  }

  lemma SameChoices(s: State, t: State, inst: Inst, c: Choice, name: string)
    requires SameBut(s, t, name) && !Mentions(inst, name) && !IndexOnly(inst, name) && AllowedChoice(s, inst, c)
    ensures AllowedChoice(t, inst, c)
  {
    SameSupply(s, t, inst, name);
  }

  lemma SameResult(s: State, t: State, inst: Inst, c: Choice, name: string)
    requires SameBut(s, t, name) && !Mentions(inst, name)
    ensures Result(s, inst, c) == Result(t, inst, c) && NewMemory(s, inst, c) == NewMemory(t, inst, c)
  {
    match inst.kind
    case Store(value, dest) => assert value in OperandsOf(inst) && dest in OperandsOf(inst);
    case Load(src) => assert src in OperandsOf(inst);
    case Cast(src) => assert src in OperandsOf(inst);
    case _ =>
  }

  lemma UnlistedIsIrrelevant(s: State, t: State, inst: Inst, c: Choice, name: string)
    requires SameBut(s, t, name) && AllowedChoice(s, inst, c) && !Mentions(inst, name) && !IndexOnly(inst, name)
    ensures SameEffect(s, t, inst, c, name)
  {
    SameSupply(s, t, inst, name);
    SameChoices(s, t, inst, c, name);
    SameResult(s, t, inst, c, name);
    forall other | other != name ensures Register(Execute(t, inst, c), other) == Register(Execute(s, inst, c), other) {
      assert Register(s, other) == Register(t, other);
    }
  }

  function Holding(registers: map<string, Value>): State {
    State(0, 0, registers, map[], {}, 0)
  }

  /** With an address in the register the computation may yield that address; without it, it may not. */
  lemma IndexMatters(inst: Inst, name: string)
    requires IndexOnly(inst, name)
    ensures Matters(inst, name)
  {
    var address := Address(Cell("", 0));
    var s, t, c := Holding(map[name := address]), Holding(map[]), Choice(address, map[], 0, 0);
    IndexOperandsExact(inst.kind.indices, name);
    assert Eval(s, Local(name)) == address;
    assert forall operand <- IndexOperands(inst.kind.indices) :: Eval(t, operand) == Uninit;
    assert AllowedChoice(s, inst, c) && !AllowedChoice(t, inst, c);
    assert SameBut(s, t, name) && !SameEffect(s, t, inst, c, name);
  }

  /**
   * The use list of a register holds every instruction for which the register's value makes a difference exactly if no
   * instruction uses it solely as an address index.
   */
  lemma UseIndexCompleteIff(insts: seq<Inst>, uses: map<string, seq<nat>>, name: string)
    requires IsUseIndex(insts, |insts|, uses)
    ensures (forall k: nat :: k < |insts| && Matters(insts[k], name) ==> k in UsesOf(uses, name))
      <==> (forall k: nat :: k < |insts| ==> !IndexOnly(insts[k], name))
  {
    forall k: nat ensures k in UsesOf(uses, name) <==> k < |insts| && Mentions(insts[k], name) {
      UsesAreMentions(insts, uses, name, k);
    }
    if k: nat :| k < |insts| && IndexOnly(insts[k], name) {
      IndexMatters(insts[k], name);
      assert !Mentions(insts[k], name);
    }
    if k: nat :| k < |insts| && Matters(insts[k], name) && k !in UsesOf(uses, name) {
      var s, t, c :| SameBut(s, t, name) && AllowedChoice(s, insts[k], c) && !SameEffect(s, t, insts[k], c, name);
      if !IndexOnly(insts[k], name) { UnlistedIsIrrelevant(s, t, insts[k], c, name); }
    }
  }
}
