/** The instruction tree of the bounded LLVM reader, and the slot identity its queries share. */
module ForeignIr {
  import opened Support

  datatype Operand =
    | Local(name: string)
    | Global(symbol: string)
    | Null
    | Literal(text: string)

  datatype InstKind =
    | Alloca
    | Store(value: Operand, dest: Operand)
    | Load(src: Operand)
    | Gep(base: Operand, baseType: string, indices: seq<string>)
    | Call(callee: Operand, args: seq<Operand>)
    | Cast(src: Operand)
    | Compare(operands: seq<Operand>)
    | Branch(targets: seq<string>)
    | Return
    | Unreachable
    | Other
    | UnsupportedTerminator

  datatype Inst = Inst(result: Option<string>, kind: InstKind, block: nat, ordinal: nat, text: string)

  datatype Block = Block(tag: Option<string>, insts: seq<Inst>)

  datatype Function = Function(name: string, params: seq<string>, blocks: seq<Block>)

  datatype GlobalVar = GlobalVar(name: string, isConstant: bool)

  datatype IrModule = IrModule(globals: map<string, GlobalVar>, functions: seq<Function>)

  /** Where a slot starts: a module variable, or a field of a structure type. */
  datatype SlotBase = GlobalSlot(symbol: string) | StructField(structType: string)

  datatype SlotId = SlotId(base: SlotBase, fieldPath: seq<string>) {
    function Extend(indices: seq<string>): SlotId {
      SlotId(base, fieldPath + indices)
    }
  }

  predicate IsTerminator(kind: InstKind) {
    kind.Branch? || kind.Return? || kind.Unreachable? || kind.UnsupportedTerminator?
  }

  function Terminator(block: Block): Option<Inst> {
    if block.insts != [] && IsTerminator(block.insts[|block.insts| - 1].kind)
    then Some(block.insts[|block.insts| - 1])
    else None
  }

  /** The first block that carries the label. */
  function BlockIndexFrom(blocks: seq<Block>, name: string, start: nat): (r: Option<nat>)
    requires start <= |blocks|
    ensures r.Some? ==> start <= r.value < |blocks| && blocks[r.value].tag == Some(name)
    ensures r.None? ==> forall b :: start <= b < |blocks| ==> blocks[b].tag != Some(name)
    ensures r.Some? ==> forall b :: start <= b < r.value ==> blocks[b].tag != Some(name)
    decreases |blocks| - start
  {
    if start == |blocks| then None
    else if blocks[start].tag == Some(name) then Some(start)
    else BlockIndexFrom(blocks, name, start + 1)
  }

  function BlockIndex(f: Function, name: string): (r: Option<nat>)
    ensures r.Some? ==> r.value < |f.blocks|
  {
    BlockIndexFrom(f.blocks, name, 0)
  }

  function Flatten(blocks: seq<Block>): seq<Inst> {
    if blocks == [] then [] else blocks[0].insts + Flatten(blocks[1..])
  }

  /** All instructions of a function, in textual order. */
  function Insts(f: Function): seq<Inst> {
    Flatten(f.blocks)
  }

  function FindFunctionFrom(functions: seq<Function>, name: string): Option<Function> {
    if functions == [] then None
    else if functions[0].name == name then Some(functions[0])
    else FindFunctionFrom(functions[1..], name)
  }

  function FindFunction(m: IrModule, name: string): Option<Function> {
    FindFunctionFrom(m.functions, name)
  }

  ghost predicate FirstNamed(functions: seq<Function>, name: string, f: Function, i: nat) {
    && i < |functions| && functions[i] == f && f.name == name
    && forall j :: 0 <= j < i ==> functions[j].name != name
  }

  /** The function is the first of the module that has the name. */
  ghost predicate Named(m: IrModule, name: string, f: Function) {
    exists i: nat :: FirstNamed(m.functions, name, f, i)
  }

  /** No function of the module has the name. */
  ghost predicate Unnamed(m: IrModule, name: string) {
    forall f <- m.functions :: f.name != name
  }

  lemma {:induction false} FindFromExact(functions: seq<Function>, name: string)
    ensures FindFunctionFrom(functions, name).None? ==> forall f <- functions :: f.name != name
    ensures FindFunctionFrom(functions, name).Some? ==>
      exists i: nat :: FirstNamed(functions, name, FindFunctionFrom(functions, name).value, i)
  {
    if functions != [] {
      FindFromExact(functions[1..], name);
      if functions[0].name == name {
        assert FirstNamed(functions, name, functions[0], 0);
      } else if FindFunctionFrom(functions[1..], name).Some? {
        var f := FindFunctionFrom(functions[1..], name).value;
        var i: nat :| FirstNamed(functions[1..], name, f, i);
        assert forall j :: 0 < j < i + 1 ==> functions[j] == functions[1..][j - 1];
        assert FirstNamed(functions, name, f, i + 1);
      }
    }
  }

  /** Looking a function up finds the first one of that name, and nothing only if there is none. */
  lemma FindFunctionIff(m: IrModule, name: string)
    ensures FindFunction(m, name).None? <==> Unnamed(m, name)
    ensures forall f :: FindFunction(m, name) == Some(f) <==> Named(m, name, f)
  {
    FindFromExact(m.functions, name);
    forall f, g, i: nat, j: nat | FirstNamed(m.functions, name, f, i) && FirstNamed(m.functions, name, g, j) ensures f == g {
      assert i == j;
    }
  }

  predicate StartsWithPercent(text: string) {
    text != "" && text[0] == '%'
  }

  /** Every instruction of every block is in the flat list. */
  lemma {:induction false} BlockInstInFlatten(blocks: seq<Block>, b: nat, i: nat)
    requires b < |blocks| && i < |blocks[b].insts|
    ensures blocks[b].insts[i] in Flatten(blocks)
  {
    if b > 0 {
      BlockInstInFlatten(blocks[1..], b - 1, i);
    }
  }

  /** Every instruction of the flat list sits in some block. */
  lemma {:induction false} FlattenInstInBlock(blocks: seq<Block>, inst: Inst)
    requires inst in Flatten(blocks)
    ensures exists b, i :: 0 <= b < |blocks| && 0 <= i < |blocks[b].insts| && blocks[b].insts[i] == inst
  {
    if inst in blocks[0].insts {
      var i :| 0 <= i < |blocks[0].insts| && blocks[0].insts[i] == inst;
    } else {
      FlattenInstInBlock(blocks[1..], inst);
      var b, i :| 0 <= b < |blocks[1..]| && 0 <= i < |blocks[1..][b].insts| && blocks[1..][b].insts[i] == inst;
      assert blocks[b + 1].insts[i] == inst;
    }
  }

  /** Where a block starts in the flat list. */
  function Offset(blocks: seq<Block>, b: nat): nat
    requires b <= |blocks|
  {
    if b == 0 then 0 else |blocks[0].insts| + Offset(blocks[1..], b - 1)
  }

  lemma {:induction false} FlattenAt(blocks: seq<Block>, b: nat, i: nat)
    requires b < |blocks| && i < |blocks[b].insts|
    ensures Offset(blocks, b) + i < |Flatten(blocks)| && Flatten(blocks)[Offset(blocks, b) + i] == blocks[b].insts[i]
  {
    if b > 0 { FlattenAt(blocks[1..], b - 1, i); }
  }

  lemma {:induction false} OffsetsGrow(blocks: seq<Block>, b: nat, c: nat)
    requires b < c <= |blocks|
    ensures Offset(blocks, b) + |blocks[b].insts| <= Offset(blocks, c)
  {
    if b > 0 { OffsetsGrow(blocks[1..], b - 1, c - 1); }
  }
}
