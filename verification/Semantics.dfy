/** How a function runs: registers, stack cells, an environment that owns everything else. */
module Semantics {
  import opened Support
  import opened ForeignIr
  import opened UseIndex
  import opened Dataflow

  /** One execution of an alloca. */
  datatype Cell = Cell(owner: string, serial: nat)

  /** Arg(i) stands for the i-th argument; equal tokens mean the same pointer. */
  datatype Value =
    | Arg(index: nat)
    | Address(cell: Cell)
    | NullPointer
    | Outside(what: string)
    | Uninit

  /** The program counter, the frame, and the stack cells whose address has left the frame. */
  datatype State = State(
    block: nat,
    index: nat,
    registers: map<string, Value>,
    memory: map<Cell, Value>,
    exposed: set<Cell>,
    next: nat)

  /** What the environment decides in one step: a value, writes to exposed cells, a jump target. */
  datatype Choice = Choice(value: Value, writes: map<Cell, Value>, block: nat, index: nat)

  function Register(s: State, name: string): Value {
    if name in s.registers then s.registers[name] else Uninit
  }

  function Eval(s: State, operand: Operand): Value {
    match operand
    case Local(name) => Register(s, name)
    case Null => NullPointer
    case Global(symbol) => Outside("@" + symbol)
    case Literal(text) => Outside(text)
  }

  function Content(s: State, cell: Cell): Value {
    if cell in s.memory then s.memory[cell] else Uninit
  }

  function InitialRegisters(params: seq<string>): map<string, Value> {
    if params == [] then map[]
    else
      var last := |params| - 1;
      var registers := InitialRegisters(params[..last]);
      if params[last] != "" then registers[params[last] := Arg(last)] else registers
  }

  function Initial(f: Function): State {
    State(0, 0, InitialRegisters(f.params), map[], {}, 0)
  }

  // ---- Data ----

  function CellsOf(values: set<Value>): set<Cell> {
    set v | v in values && v.Address? :: v.cell
  }

  function ValuesOf(s: State, operands: seq<Operand>): set<Value> {
    set operand | operand in operands :: Eval(s, operand)
  }

  /** Registers an address computation reads through its indices. */
  function IndexOperands(indices: seq<string>): (operands: seq<Operand>)
    ensures forall name :: Local(name) in operands ==> ("%" + name) in indices
    ensures forall operand :: operand in operands ==> operand.Local?
  {
    if indices == [] then []
    else
      assert StartsWithPercent(indices[0]) ==> indices[0] == "%" + indices[0][1..];
      (if StartsWithPercent(indices[0]) then [Local(indices[0][1..])] else []) + IndexOperands(indices[1..])
  }

  /** Values the instruction itself may pass on to its result or to exposed memory. */
  function Supplied(s: State, inst: Inst): set<Value> {
    match inst.kind
    case Gep(base, _, indices) => {Eval(s, base)} + ValuesOf(s, IndexOperands(indices))
    case Other => ValuesOf(s, LocalsInText(inst.text))
    case UnsupportedTerminator => ValuesOf(s, LocalsInText(inst.text))
    case _ => {}
  }

  predicate StartsWith(text: string, prefix: string) {
    |prefix| <= |text| && text[..|prefix|] == prefix
  }

  /** Calls of these names are notes to the compiler: nothing happens when they run. */
  predicate IsDebugMarker(callee: Operand) {
    callee.Global? && StartsWith(callee.symbol, "llvm.dbg.")
  }

  predicate IsMarker(callee: Operand) {
    || IsDebugMarker(callee)
    || (callee.Global? && (StartsWith(callee.symbol, "llvm.lifetime.") || StartsWith(callee.symbol, "llvm.invariant.")))
  }

  /** The intrinsics the analysis lets a spill cell's address go to are exactly these. */
  lemma MarkersAreIntrinsics(inst: Inst)
    requires inst.kind.Call?
    ensures IsMarker(inst.kind.callee) <==> IsIntrinsicCall(inst)
  {
  }

  /** Addresses that leave the frame when the instruction runs. */
  function Leaks(s: State, inst: Inst): set<Cell> {
    match inst.kind
    case Store(value, _) => CellsOf({Eval(s, value)})
    case Call(callee, args) => if IsMarker(callee) then {} else CellsOf(ValuesOf(s, [callee] + args))
    case Other => CellsOf(ValuesOf(s, LocalsInText(inst.text)))
    case UnsupportedTerminator => CellsOf(ValuesOf(s, LocalsInText(inst.text)))
    case _ => {}
  }

  /** Calls into unknown code and unmodelled instructions may rewrite exposed cells. */
  predicate MayWriteExposed(inst: Inst) {
    (inst.kind.Call? && !IsMarker(inst.kind.callee)) || inst.kind.Other? || inst.kind.UnsupportedTerminator?
  }

  /** The environment cannot forge the address of a cell it was never given. */
  predicate Nameable(s: State, inst: Inst, v: Value) {
    v.Address? ==> v.cell in s.exposed + Leaks(s, inst) || v in Supplied(s, inst)
  }

  predicate AllowedChoice(s: State, inst: Inst, c: Choice) {
    && Nameable(s, inst, c.value)
    && (forall cell :: cell in c.writes ==>
          MayWriteExposed(inst) && cell in s.exposed + Leaks(s, inst) && Nameable(s, inst, c.writes[cell]))
  }

  /** The value an instruction leaves in its result register. */
  function Result(s: State, inst: Inst, c: Choice): Value {
    match inst.kind
    case Alloca => Address(Cell(if inst.result.Some? then inst.result.value else "", s.next))
    case Cast(src) => Eval(s, src)
    case Load(src) =>
      (match Eval(s, src)
       case Address(cell) => Content(s, cell)
       case Uninit => Uninit
       case _ => c.value)
    case _ => c.value
  }

  function NewMemory(s: State, inst: Inst, c: Choice): map<Cell, Value> {
    match inst.kind
    case Alloca => s.memory[Cell(if inst.result.Some? then inst.result.value else "", s.next) := Uninit]
    case Store(value, dest) =>
      if Eval(s, dest).Address? then s.memory[Eval(s, dest).cell := Eval(s, value)] else s.memory
    case _ => s.memory + c.writes
  }

  /** The data part of one instruction; the program counter stays. */
  function Execute(s: State, inst: Inst, c: Choice): State {
    s.(registers := if inst.result.Some? then s.registers[inst.result.value := Result(s, inst, c)] else s.registers,
       memory := NewMemory(s, inst, c),
       exposed := s.exposed + Leaks(s, inst),
       next := s.next + 1)
  }

  // ---- Control ----

  predicate InBounds(f: Function, s: State) {
    s.block < |f.blocks| && s.index <= |f.blocks[s.block].insts|
  }

  predicate HasInst(f: Function, s: State) {
    s.block < |f.blocks| && s.index < |f.blocks[s.block].insts|
  }

  function CurrentInst(f: Function, s: State): Inst
    requires HasInst(f, s)
  {
    f.blocks[s.block].insts[s.index]
  }

  predicate IsLast(f: Function, s: State)
    requires HasInst(f, s)
  {
    s.index == |f.blocks[s.block].insts| - 1
  }

  /** Control does not go on to the next instruction. */
  predicate LeavesBlock(kind: InstKind) {
    match kind
    case Branch(_) => true
    case Return => true
    case Unreachable => true
    case UnsupportedTerminator => true
    case _ => false
  }

  /** Where control may go: the next instruction, a branch target, or anywhere after an unreadable terminator. */
  ghost predicate AllowedJump(f: Function, s: State, block: nat, index: nat)
    requires HasInst(f, s)
  {
    var inst := CurrentInst(f, s);
    if !LeavesBlock(inst.kind) then block == s.block && index == s.index + 1
    else if !IsLast(f, s) || inst.kind.UnsupportedTerminator? then
      block < |f.blocks| && index <= |f.blocks[block].insts|
    else if inst.kind.Branch? then
      index == 0 && exists target :: target in inst.kind.targets && BlockIndex(f, target) == Some(block)
    else false
  }

  ghost predicate Step(f: Function, s: State, c: Choice, t: State) {
    if HasInst(f, s) then
      var inst := CurrentInst(f, s);
      && AllowedChoice(s, inst, c)
      && AllowedJump(f, s, c.block, c.index)
      && t == Execute(s, inst, c).(block := c.block, index := c.index)
    else
      && InBounds(f, s)
      && c.block < |f.blocks|
      && t == s.(block := c.block, index := 0)
  }

  /** A finite run from a call of the function. */
  datatype Run = Run(states: seq<State>, choices: seq<Choice>)

  /** The first k steps of the run are steps, from the initial state on. */
  ghost predicate RunsTo(f: Function, r: Run, k: nat)
    requires k < |r.states| && k <= |r.choices|
  {
    if k == 0 then r.states[0] == Initial(f)
    else RunsTo(f, r, k - 1) && Step(f, r.states[k - 1], r.choices[k - 1], r.states[k])
  }

  ghost predicate IsRun(f: Function, r: Run) {
    |f.blocks| > 0 && |r.states| == |r.choices| + 1 && RunsTo(f, r, |r.choices|)
  }

  lemma {:induction false} RunPrefix(f: Function, r: Run, j: nat, k: nat)
    requires j <= k < |r.states| && k <= |r.choices| && RunsTo(f, r, k)
    ensures RunsTo(f, r, j)
    decreases k - j
  {
    if j < k { RunPrefix(f, r, j, k - 1); }
  }

  lemma RunSteps(f: Function, r: Run, k: nat)
    requires IsRun(f, r) && k < |r.choices|
    ensures Step(f, r.states[k], r.choices[k], r.states[k + 1])
  {
    RunPrefix(f, r, k + 1, |r.choices|);
  }

  lemma RunStarts(f: Function, r: Run)
    requires IsRun(f, r)
    ensures r.states[0] == Initial(f)
  {
    RunPrefix(f, r, 0, |r.choices|);
  }

  /** The run stands before this instruction, about to execute it. */
  ghost predicate ExecutedAt(f: Function, r: Run, k: nat, inst: Inst) {
    k < |r.states| && HasInst(f, r.states[k]) && CurrentInst(f, r.states[k]) == inst
  }

  predicate AtReturn(f: Function, s: State) {
    HasInst(f, s) && IsLast(f, s) && CurrentInst(f, s).kind.Return?
  }

  ghost predicate ReturningRun(f: Function, r: Run) {
    IsRun(f, r) && AtReturn(f, r.states[|r.states| - 1])
  }

  /** The environment does not hand the token of this argument back on its own account. */
  predicate TokenFreeStep(s: State, inst: Inst, c: Choice, index: nat) {
    && (c.value == Arg(index) ==> c.value in Supplied(s, inst))
    && (forall cell :: cell in c.writes && c.writes[cell] == Arg(index) ==> c.writes[cell] in Supplied(s, inst))
  }

  /** The environment keeps the token to itself during the first k steps. */
  ghost predicate TokenFreeTo(f: Function, r: Run, k: nat, index: nat)
    requires k < |r.states| && k <= |r.choices|
  {
    k > 0 ==>
      && TokenFreeTo(f, r, k - 1, index)
      && (HasInst(f, r.states[k - 1]) ==>
            TokenFreeStep(r.states[k - 1], CurrentInst(f, r.states[k - 1]), r.choices[k - 1], index))
  }

  ghost predicate TokenFree(f: Function, r: Run, index: nat)
    requires IsRun(f, r)
  {
    TokenFreeTo(f, r, |r.choices|, index)
  }

  lemma {:induction false} TokenFreePrefix(f: Function, r: Run, j: nat, k: nat, index: nat)
    requires j <= k < |r.states| && k <= |r.choices| && TokenFreeTo(f, r, k, index)
    ensures TokenFreeTo(f, r, j, index)
    decreases k - j
  {
    if j < k { TokenFreePrefix(f, r, j, k - 1, index); }
  }

  // ---- Well-formed functions ----

  /** Terminators stand only at the end of a block, and instructions know their block. */
  ghost predicate WellPlaced(f: Function) {
    forall b, i :: 0 <= b < |f.blocks| && 0 <= i < |f.blocks[b].insts| ==>
      f.blocks[b].insts[i].block == b
      && (i < |f.blocks[b].insts| - 1 ==> !LeavesBlock(f.blocks[b].insts[i].kind))
  }

  /** Indices are integers, so a stack address is never one. */
  ghost predicate IntegerIndices(insts: seq<Inst>) {
    forall j, k :: 0 <= j < |insts| && 0 <= k < |insts| && insts[k].kind.Alloca? && insts[k].result.Some? ==>
      !(insts[j].kind.Gep? && ("%" + insts[k].result.value) in insts[j].kind.indices)
  }

  /** The address of one register's cells is exactly what that register can hold. */
  ghost predicate SsaForm(m: IrModule, f: Function) {
    SingleAssignment(CodeOf(m, f)) && IntegerIndices(Insts(f))
  }

  lemma {:induction false} InitialRegistersExact(params: seq<string>, name: string)
    requires DistinctParams(params)
    ensures name in InitialRegisters(params) <==> name in InitialOrigins(params)
    ensures name in InitialRegisters(params) ==>
      InitialOrigins(params)[name].Param? && InitialRegisters(params)[name] == Arg(InitialOrigins(params)[name].index)
  {
    if params != [] {
      InitialRegistersExact(params[..|params| - 1], name);
    }
  }

  lemma CurrentInstListed(f: Function, s: State) returns (k: nat)
    requires HasInst(f, s)
    ensures k < |Insts(f)| && Insts(f)[k] == CurrentInst(f, s)
  {
    BlockInstInFlatten(f.blocks, s.block, s.index);
    k :| k < |Insts(f)| && Insts(f)[k] == CurrentInst(f, s);
  }
}
