/**
 * When a stored copy is really the parameter or null it carries: on every walk from the entry each definition and each
 * store to a spill cell on its copy chain comes before its use.
 */
module CopyOrder {
  import opened Support
  import opened ForeignIr
  import opened UseIndex
  import opened Dataflow
  import opened Semantics
  import opened Invariants
  import opened Walks
  import opened Definiteness

  // ---- What a walk has passed ----

  predicate DefinesAt(f: Function, w: seq<Place>, i: nat, n: string)
    requires i < |w|
  {
    HasPlace(f, w[i]) && InstAt(f, w[i]).result == Some(n)
  }

  predicate AllocatesAt(f: Function, w: seq<Place>, i: nat, a: string)
    requires i < |w|
  {
    HasPlace(f, w[i]) && Allocates(InstAt(f, w[i]), a)
  }

  predicate StoresAt(f: Function, w: seq<Place>, i: nat, a: string)
    requires i < |w|
  {
    HasPlace(f, w[i]) && StoresTo(InstAt(f, w[i]), a)
  }

  /** The walk stores to the cell at s, allocates it before and not again since. */
  ghost predicate StoredSince(f: Function, w: seq<Place>, a: string, s: nat) {
    && s < |w| - 1 && StoresAt(f, w, s, a)
    && (exists j :: 0 <= j < s && AllocatesAt(f, w, j, a))
    && forall j :: s < j < |w| - 1 ==> !AllocatesAt(f, w, j, a)
  }

  // ---- The order a copy chain asks for ----

  /** Every walk to the instruction has written the register before. */
  ghost predicate WrittenBefore(f: Function, inst: Inst, n: string) {
    forall w :: WalkTo(f, w, inst) ==> exists i :: 0 <= i < |w| - 1 && DefinesAt(f, w, i, n)
  }

  /** Every walk to the load has stored to the cell it last allocated. */
  ghost predicate FilledBefore(f: Function, load: Inst, a: string) {
    forall w :: WalkTo(f, w, load) ==> exists s: nat :: StoredSince(f, w, a, s)
  }

  predicate IsParam(code: Code, n: string) {
    n in code.params && n != ""
  }

  ghost predicate OperandOrdered(f: Function, code: Code, inst: Inst, operand: Operand) {
    operand.Null? || (operand.Local? && (IsParam(code, operand.name) || WrittenBefore(f, inst, operand.name)))
  }

  /** The copying instruction comes after what it copies is written; for a load, also after the store to the cell. */
  ghost predicate CopyOrdered(f: Function, code: Code, inst: Inst) {
    match inst.kind
    case Cast(src) => OperandOrdered(f, code, inst, src)
    case Load(src) =>
      && src.Local? && src.name in code.spills && FilledBefore(f, inst, src.name)
      && forall store :: store in code.insts && StoresTo(store, src.name) ==>
           OperandOrdered(f, code, store, code.spills[src.name])
    case _ => false
  }

  ghost predicate NameOrdered(f: Function, code: Code, n: string) {
    forall inst :: inst in code.insts && inst.result == Some(n) ==> CopyOrdered(f, code, inst)
  }

  /** Each definition and each spill store on the chain precedes its use, up to the use of the last name. */
  ghost predicate ChainOrdered(f: Function, code: Code, path: seq<string>, use: Inst)
    requires path != []
  {
    && OperandOrdered(f, code, use, Local(path[|path| - 1]))
    && forall k :: 0 <= k < |path| && !IsParam(code, path[k]) ==> NameOrdered(f, code, path[k])
  }

  /** Every walk to the instruction leaves the operand written. */
  ghost predicate AlwaysWritten(f: Function, code: Code, inst: Inst, operand: Operand) {
    forall w :: WalkTo(f, w, inst) ==> OperandReady(WrittenAt(f, code, w, |w| - 1), operand)
  }

  // ---- How a walk writes registers ----

  lemma OneStep(f: Function, code: Code, w: seq<Place>, t: nat, n: string)
    requires t + 1 < |w|
    ensures !DefinesAt(f, w, t, n) ==>
      (n in WrittenAt(f, code, w, t + 1).registers <==> n in WrittenAt(f, code, w, t).registers)
    ensures DefinesAt(f, w, t, n) ==>
      (n in WrittenAt(f, code, w, t + 1).registers <==> CopyReady(code, WrittenAt(f, code, w, t), InstAt(f, w[t])))
  {
  }

  lemma {:induction false} RegisterKept(f: Function, code: Code, w: seq<Place>, i: nat, t: nat, n: string)
    requires i <= t < |w| && forall j :: i <= j < t ==> !DefinesAt(f, w, j, n)
    ensures n in WrittenAt(f, code, w, t).registers <==> n in WrittenAt(f, code, w, i).registers
    decreases t
  {
    if i < t {
      RegisterKept(f, code, w, i, t - 1, n);
      OneStep(f, code, w, t - 1, n);
    }
  }

  lemma {:induction false} LastDefinition(f: Function, w: seq<Place>, t: nat, n: string) returns (i: nat)
    requires t < |w| && exists j :: 0 <= j < t && DefinesAt(f, w, j, n)
    ensures i < t && DefinesAt(f, w, i, n) && forall j :: i < j < t ==> !DefinesAt(f, w, j, n)
  {
    if DefinesAt(f, w, t - 1, n) {
      i := t - 1;
    } else {
      i := LastDefinition(f, w, t - 1, n);
    }
  }

  lemma WrittenWasDefined(f: Function, code: Code, w: seq<Place>, t: nat, n: string)
    requires t < |w| && n in WrittenAt(f, code, w, t).registers && !IsParam(code, n)
    ensures exists j :: 0 <= j < t && DefinesAt(f, w, j, n)
  {
    if forall j :: 0 <= j < t ==> !DefinesAt(f, w, j, n) {
      RegisterKept(f, code, w, 0, t, n);
    }
  }

  /** A register is written exactly if its last definition copied something written. */
  lemma WrittenIff(f: Function, code: Code, w: seq<Place>, t: nat, n: string, i: nat)
    requires t < |w| && i < t && DefinesAt(f, w, i, n) && forall j :: i < j < t ==> !DefinesAt(f, w, j, n)
    ensures n in WrittenAt(f, code, w, t).registers <==> CopyReady(code, WrittenAt(f, code, w, i), InstAt(f, w[i]))
  {
    OneStep(f, code, w, i, n);
    RegisterKept(f, code, w, i + 1, t, n);
  }

  // ---- How a walk fills cells ----

  lemma {:induction false} LiveIff(f: Function, code: Code, w: seq<Place>, t: nat, a: string)
    requires t < |w| && a in code.spills
    ensures a in WrittenAt(f, code, w, t).live <==> exists j :: 0 <= j < t && AllocatesAt(f, w, j, a)
  {
    if t > 0 {
      LiveIff(f, code, w, t - 1, a);
      assert AllocatesAt(f, w, t - 1, a) ==> a in WrittenAt(f, code, w, t).live;
    }
  }

  lemma {:induction false} FilledIsLive(f: Function, code: Code, w: seq<Place>, t: nat, a: string)
    requires t < |w| && a in WrittenAt(f, code, w, t).filled
    ensures a in WrittenAt(f, code, w, t).live
  {
    if t > 0 && a in WrittenAt(f, code, w, t - 1).filled { FilledIsLive(f, code, w, t - 1, a); }
  }

  predicate Touches(f: Function, w: seq<Place>, i: nat, a: string)
    requires i < |w|
  {
    StoresAt(f, w, i, a) || AllocatesAt(f, w, i, a)
  }

  lemma OneFill(f: Function, code: Code, w: seq<Place>, t: nat, a: string)
    requires t + 1 < |w| && a in code.spills
    ensures !Touches(f, w, t, a) ==>
      (a in WrittenAt(f, code, w, t + 1).filled <==> a in WrittenAt(f, code, w, t).filled)
    ensures StoresAt(f, w, t, a) && a in WrittenAt(f, code, w, t).live ==>
      (a in WrittenAt(f, code, w, t + 1).filled <==>
         OperandReady(WrittenAt(f, code, w, t), InstAt(f, w[t]).kind.value))
    ensures AllocatesAt(f, w, t, a) ==> a !in WrittenAt(f, code, w, t + 1).filled
  {
  }

  lemma {:induction false} FilledKept(f: Function, code: Code, w: seq<Place>, i: nat, t: nat, a: string)
    requires i <= t < |w| && a in code.spills && forall j :: i <= j < t ==> !Touches(f, w, j, a)
    ensures a in WrittenAt(f, code, w, t).filled <==> a in WrittenAt(f, code, w, i).filled
    decreases t
  {
    if i < t {
      FilledKept(f, code, w, i, t - 1, a);
      OneFill(f, code, w, t - 1, a);
    }
  }

  /** The last store to a filled cell: the cell was there, and the value stored was written. */
  lemma {:induction false} LastFill(f: Function, code: Code, w: seq<Place>, t: nat, a: string) returns (s: nat)
    requires t < |w| && a in code.spills && a in WrittenAt(f, code, w, t).filled
    ensures s < t && StoresAt(f, w, s, a) && a in WrittenAt(f, code, w, s).live
    ensures OperandReady(WrittenAt(f, code, w, s), InstAt(f, w[s]).kind.value)
    ensures forall j :: s < j < t ==> !Touches(f, w, j, a)
  {
    OneFill(f, code, w, t - 1, a);
    if StoresAt(f, w, t - 1, a) {
      FilledIsLive(f, code, w, t, a);
      StoreNeedsLive(f, code, w, t - 1, a);
      s := t - 1;
    } else {
      s := LastFill(f, code, w, t - 1, a);
    }
  }

  lemma StoreNeedsLive(f: Function, code: Code, w: seq<Place>, t: nat, a: string)
    requires t + 1 < |w| && StoresAt(f, w, t, a) && a in WrittenAt(f, code, w, t + 1).live
    ensures a in WrittenAt(f, code, w, t).live
  {
  }

  lemma {:induction false} LastTouch(f: Function, w: seq<Place>, t: nat, a: string, s: nat) returns (last: nat)
    requires s < t < |w| && StoresAt(f, w, s, a)
    requires forall j :: s < j < t ==> !AllocatesAt(f, w, j, a)
    ensures s <= last < t && StoresAt(f, w, last, a) && forall j :: last < j < t ==> !Touches(f, w, j, a)
  {
    if StoresAt(f, w, t - 1, a) {
      last := t - 1;
    } else {
      last := LastTouch(f, w, t - 1, a, s);
    }
  }

  lemma WalkToPlace(f: Function, w: seq<Place>, s: nat) returns (v: seq<Place>, inst: Inst)
    requires Walk(f, w) && s < |w| && HasPlace(f, w[s])
    ensures v == w[..s + 1] && inst == InstAt(f, w[s]) && WalkTo(f, v, inst)
  {
    v, inst := w[..s + 1], InstAt(f, w[s]);
    WalkPrefix(f, w, s + 1);
  }

  // ---- One place per definition ----

  function FlatIndex(f: Function, p: Place): (k: nat)
    requires HasPlace(f, p)
    ensures k < |Insts(f)| && Insts(f)[k] == InstAt(f, p)
  {
    FlattenAt(f.blocks, p.block, p.index);
    Offset(f.blocks, p.block) + p.index
  }

  lemma SameFlatSamePlace(f: Function, p: Place, q: Place)
    requires HasPlace(f, p) && HasPlace(f, q) && FlatIndex(f, p) == FlatIndex(f, q)
    ensures p == q
  {
    if p.block < q.block { OffsetsGrow(f.blocks, p.block, q.block); }
    if q.block < p.block { OffsetsGrow(f.blocks, q.block, p.block); }
  }

  lemma OneDefinition(m: IrModule, f: Function, p: Place, q: Place)
    requires SingleAssignment(CodeOf(m, f)) && HasPlace(f, p) && HasPlace(f, q)
    requires InstAt(f, p).result.Some? && InstAt(f, p).result == InstAt(f, q).result
    ensures p == q
  {
    UniqueDefinition(CodeOf(m, f), FlatIndex(f, p), FlatIndex(f, q));
    SameFlatSamePlace(f, p, q);
  }

  lemma OneStoreIndex(insts: seq<Inst>, a: string, j: nat, k: nat)
    requires a in SpillMap(insts) && j < |insts| && k < |insts| && StoresTo(insts[j], a) && StoresTo(insts[k], a)
    ensures j == k
  {
    var only: nat :| SpillStore(insts, a, only);
    assert Mentions(insts[j], a) && Mentions(insts[k], a);
  }

  lemma OneStore(m: IrModule, f: Function, a: string, p: Place, q: Place)
    requires a in CodeOf(m, f).spills && HasPlace(f, p) && HasPlace(f, q)
    requires StoresTo(InstAt(f, p), a) && StoresTo(InstAt(f, q), a)
    ensures p == q
  {
    OneStoreIndex(Insts(f), a, FlatIndex(f, p), FlatIndex(f, q));
    SameFlatSamePlace(f, p, q);
  }

  lemma OnlyStore(m: IrModule, f: Function, a: string, p: Place, store: Inst)
    requires a in CodeOf(m, f).spills && HasPlace(f, p) && StoresTo(InstAt(f, p), a)
    requires store in Insts(f) && StoresTo(store, a)
    ensures store == InstAt(f, p)
  {
    var k :| 0 <= k < |Insts(f)| && Insts(f)[k] == store;
    OneStoreIndex(Insts(f), a, FlatIndex(f, p), k);
  }

  lemma OnlyDefinition(m: IrModule, f: Function, n: string, p: Place, inst: Inst)
    requires SingleAssignment(CodeOf(m, f)) && HasPlace(f, p) && InstAt(f, p).result == Some(n)
    requires inst in Insts(f) && inst.result == Some(n)
    ensures inst == InstAt(f, p)
  {
    var k :| 0 <= k < |Insts(f)| && Insts(f)[k] == inst;
    UniqueDefinition(CodeOf(m, f), FlatIndex(f, p), k);
  }

  lemma PlaceInCode(m: IrModule, f: Function, p: Place)
    requires HasPlace(f, p)
    ensures InstAt(f, p) in CodeOf(m, f).insts
  {
    var k := FlatIndex(f, p);
  }

  lemma DefinitionIsNoParam(m: IrModule, f: Function, p: Place)
    requires SingleAssignment(CodeOf(m, f)) && HasPlace(f, p)
    ensures InstAt(f, p).result.Some? ==> InstAt(f, p).result.value !in f.params
  {
    var k := FlatIndex(f, p);
  }

  lemma ParamStaysWritten(m: IrModule, f: Function, w: seq<Place>, t: nat, n: string)
    requires SingleAssignment(CodeOf(m, f)) && t < |w| && IsParam(CodeOf(m, f), n)
    ensures n in WrittenAt(f, CodeOf(m, f), w, t).registers
  {
    forall j | 0 <= j < t ensures !DefinesAt(f, w, j, n) {
      if HasPlace(f, w[j]) { DefinitionIsNoParam(m, f, w[j]); }
    }
    RegisterKept(f, CodeOf(m, f), w, 0, t, n);
  }

  /** A name of a chain that is no parameter copies the name before it, or null if it is the first. */
  lemma ChainCopies(code: Code, o: ValueOrigin, path: seq<string>, i: nat, inst: Inst)
    requires SingleAssignment(code) && CopyChain(code, o, path) && i < |path|
    requires inst in code.insts && inst.result == Some(path[i])
    ensures Copied(code, inst).Some?
    ensures i == 0 ==> Copied(code, inst).value.Null?
    ensures i > 0 ==> Copied(code, inst).value == Local(path[i - 1])
  {
    var k :| 0 <= k < |code.insts| && code.insts[k] == inst;
    if i > 0 {
      assert Link(code, path[i - 1], path[i - 1 + 1]);
      var j :| 0 <= j < |code.insts| && code.insts[j].result == Some(path[i]) && Copied(code, code.insts[j]) == Some(Local(path[i - 1]));
      UniqueDefinition(code, j, k);
    } else {
      assert path[0] !in Roots(code, o);
      var j :| 0 <= j < |code.insts| && code.insts[j].result == Some(path[0]) && Copied(code, code.insts[j]) == Some(Null);
      UniqueDefinition(code, j, k);
    }
  }

  lemma ChainParamFirst(code: Code, o: ValueOrigin, path: seq<string>, i: nat)
    requires SingleAssignment(code) && CopyChain(code, o, path) && 0 < i < |path|
    ensures path[i] !in code.params
  {
    assert Link(code, path[i - 1], path[i - 1 + 1]);
    var j :| 0 <= j < |code.insts| && code.insts[j].result == Some(path[i]) && Copied(code, code.insts[j]) == Some(Local(path[i - 1]));
  }

  // ---- Ordered chains are written ----

  ghost predicate NamesOrdered(f: Function, code: Code, path: seq<string>) {
    forall k :: 0 <= k < |path| && !IsParam(code, path[k]) ==> NameOrdered(f, code, path[k])
  }

  /** What is copied along the chain: null before the first name, or the name before. */
  function Before(path: seq<string>, i: nat): Operand
    requires i <= |path|
  {
    if i == 0 then Null else Local(path[i - 1])
  }

  /** The walk goes on from v, which stands before the last definition of the register. */
  ghost predicate LastDefinedAfter(f: Function, w: seq<Place>, n: string, v: seq<Place>, inst: Inst) {
    && 0 < |v| < |w| && v == w[..|v|] && DefinesAt(f, w, |v| - 1, n) && inst == InstAt(f, w[|v| - 1])
    && forall j :: |v| <= j < |w| - 1 ==> !DefinesAt(f, w, j, n)
  }

  lemma DefinitionOn(m: IrModule, f: Function, use: Inst, w: seq<Place>, n: string) returns (v: seq<Place>, inst: Inst)
    requires WalkTo(f, w, use) && WrittenBefore(f, use, n)
    ensures LastDefinedAfter(f, w, n, v, inst) && WalkTo(f, v, inst) && inst in CodeOf(m, f).insts
  {
    var d := LastDefinition(f, w, |w| - 1, n);
    PlaceInCode(m, f, w[d]);
    v, inst := WalkToPlace(f, w, d);
  }

  lemma WrittenFromCopy(f: Function, code: Code, w: seq<Place>, n: string, v: seq<Place>, inst: Inst)
    requires LastDefinedAfter(f, w, n, v, inst) && CopyReady(code, WrittenAt(f, code, v, |v| - 1), inst)
    ensures n in WrittenAt(f, code, w, |w| - 1).registers
  {
    WrittenPrefix(f, code, w, v, |v| - 1);
    WrittenIff(f, code, w, |w| - 1, n, |v| - 1);
  }

  lemma {:induction false} OrderedIsWritten(m: IrModule, f: Function, o: ValueOrigin, path: seq<string>, i: nat, inst: Inst, w: seq<Place>)
    requires SsaForm(m, f) && CopyChain(CodeOf(m, f), o, path) && NamesOrdered(f, CodeOf(m, f), path) && i <= |path|
    requires OperandOrdered(f, CodeOf(m, f), inst, Before(path, i)) && WalkTo(f, w, inst)
    ensures OperandReady(WrittenAt(f, CodeOf(m, f), w, |w| - 1), Before(path, i))
    decreases i, 0
  {
    var code := CodeOf(m, f);
    if i > 0 {
      var n := path[i - 1];
      if IsParam(code, n) {
        ParamStaysWritten(m, f, w, |w| - 1, n);
      } else {
        var v, last := DefinitionOn(m, f, inst, w, n);
        CopyIsWritten(m, f, o, path, i - 1, last, v);
        WrittenFromCopy(f, code, w, n, v, last);
      }
    }
  }

  lemma {:induction false} CopyIsWritten(m: IrModule, f: Function, o: ValueOrigin, path: seq<string>, i: nat, inst: Inst, w: seq<Place>)
    requires SsaForm(m, f) && CopyChain(CodeOf(m, f), o, path) && NamesOrdered(f, CodeOf(m, f), path) && i < |path|
    requires inst in CodeOf(m, f).insts && inst.result == Some(path[i]) && !IsParam(CodeOf(m, f), path[i]) && WalkTo(f, w, inst)
    ensures CopyReady(CodeOf(m, f), WrittenAt(f, CodeOf(m, f), w, |w| - 1), inst)
    decreases i, 2
  {
    var code := CodeOf(m, f);
    assert NameOrdered(f, code, path[i]);
    ChainCopies(code, o, path, i, inst);
    assert Copied(code, inst).value == Before(path, i);
    match inst.kind
    case Cast(src) => OrderedIsWritten(m, f, o, path, i, inst, w);
    case Load(src) => FillIsWritten(m, f, o, path, i, inst, w, src.name);
  }

  lemma {:induction false} FillIsWritten(m: IrModule, f: Function, o: ValueOrigin, path: seq<string>, i: nat, load: Inst, w: seq<Place>, a: string)
    requires SsaForm(m, f) && CopyChain(CodeOf(m, f), o, path) && NamesOrdered(f, CodeOf(m, f), path) && i < |path|
    requires WalkTo(f, w, load) && load.kind == Load(Local(a)) && a in CodeOf(m, f).spills && CodeOf(m, f).spills[a] == Before(path, i)
    requires CopyOrdered(f, CodeOf(m, f), load)
    ensures a in WrittenAt(f, CodeOf(m, f), w, |w| - 1).filled
    decreases i, 1
  {
    var s, v, store := StoreBefore(m, f, load, w, a);
    OrderedIsWritten(m, f, o, path, i, store, v);
    LastStoreFills(f, CodeOf(m, f), w, a, s, v, store);
  }

  /** The walk goes on from v, which stands before its last store to the cell, and has the cell since. */
  ghost predicate LastStore(f: Function, w: seq<Place>, a: string, s: nat, v: seq<Place>, store: Inst) {
    && 0 < |v| < |w| && v == w[..|v|] && s <= |v| - 1 && StoredSince(f, w, a, s)
    && StoresAt(f, w, |v| - 1, a) && store == InstAt(f, w[|v| - 1])
    && forall j :: |v| <= j < |w| - 1 ==> !Touches(f, w, j, a)
  }

  /** The last store to the cell before an ordered load, and where it stands. */
  lemma StoreBefore(m: IrModule, f: Function, load: Inst, w: seq<Place>, a: string) returns (s: nat, v: seq<Place>, store: Inst)
    requires WalkTo(f, w, load) && load.kind == Load(Local(a)) && CopyOrdered(f, CodeOf(m, f), load)
    ensures LastStore(f, w, a, s, v, store) && WalkTo(f, v, store)
    ensures store.kind.value == CodeOf(m, f).spills[a] && OperandOrdered(f, CodeOf(m, f), store, CodeOf(m, f).spills[a])
  {
    s :| StoredSince(f, w, a, s);
    var last := LastTouch(f, w, |w| - 1, a, s);
    store, v := InstAt(f, w[last]), w[..last + 1];
    PlaceInCode(m, f, w[last]);
    StoredIsSpilled(CodeOf(m, f), store, a);
    WalkPrefix(f, w, last + 1);
  }

  lemma LastStoreFills(f: Function, code: Code, w: seq<Place>, a: string, s: nat, v: seq<Place>, store: Inst)
    requires a in code.spills && LastStore(f, w, a, s, v, store)
    requires OperandReady(WrittenAt(f, code, v, |v| - 1), store.kind.value)
    ensures a in WrittenAt(f, code, w, |w| - 1).filled
  {
    var last := |v| - 1;
    WrittenPrefix(f, code, w, v, last);
    LiveIff(f, code, w, last, a);
    OneFill(f, code, w, last, a);
    FilledKept(f, code, w, last + 1, |w| - 1, a);
  }

  // ---- Written chains are ordered ----

  ghost predicate AlwaysCopies(f: Function, code: Code, inst: Inst) {
    forall w :: WalkTo(f, w, inst) ==> CopyReady(code, WrittenAt(f, code, w, |w| - 1), inst)
  }

  /** Whatever walk reaches the last definition can go on to the use without defining the register again. */
  lemma GoOnToUse(f: Function, use: Inst, n: string, w: seq<Place>, d: seq<Place>, inst: Inst, v: seq<Place>) returns (u: seq<Place>)
    requires WalkTo(f, w, use) && LastDefinedAfter(f, w, n, d, inst) && Walk(f, v) && v[|v| - 1] == w[|d| - 1]
    ensures WalkTo(f, u, use) && LastDefinedAfter(f, u, n, v, inst)
  {
    var i := |d| - 1;
    WalkSplice(f, v, w, i);
    u := v + w[i + 1..];
    forall j | |v| <= j < |u| - 1 ensures !DefinesAt(f, u, j, n) {
      assert u[j] == w[i + 1 + j - |v|] && !DefinesAt(f, w, i + 1 + j - |v|, n);
    }
  }

  lemma WrittenMeansCopied(f: Function, code: Code, w: seq<Place>, n: string, v: seq<Place>, inst: Inst)
    requires LastDefinedAfter(f, w, n, v, inst) && n in WrittenAt(f, code, w, |w| - 1).registers
    ensures CopyReady(code, WrittenAt(f, code, v, |v| - 1), inst)
  {
    WrittenPrefix(f, code, w, v, |v| - 1);
    WrittenIff(f, code, w, |w| - 1, n, |v| - 1);
  }

  lemma {:induction false} DefinitionAlwaysCopies(m: IrModule, f: Function, use: Inst, n: string, w: seq<Place>, d: seq<Place>, inst: Inst)
    requires SsaForm(m, f) && AlwaysWritten(f, CodeOf(m, f), use, Local(n)) && WalkTo(f, w, use)
    requires LastDefinedAfter(f, w, n, d, inst)
    ensures AlwaysCopies(f, CodeOf(m, f), inst)
  {
    forall v | WalkTo(f, v, inst) ensures CopyReady(CodeOf(m, f), WrittenAt(f, CodeOf(m, f), v, |v| - 1), inst) {
      OneDefinition(m, f, v[|v| - 1], w[|d| - 1]);
      var u := GoOnToUse(f, use, n, w, d, inst, v);
      WrittenMeansCopied(f, CodeOf(m, f), u, n, v, inst);
    }
  }

  lemma AlwaysDefined(m: IrModule, f: Function, use: Inst, n: string)
    requires AlwaysWritten(f, CodeOf(m, f), use, Local(n)) && !IsParam(CodeOf(m, f), n)
    ensures WrittenBefore(f, use, n)
  {
    forall w | WalkTo(f, w, use) ensures exists i :: 0 <= i < |w| - 1 && DefinesAt(f, w, i, n) {
      WrittenWasDefined(f, CodeOf(m, f), w, |w| - 1, n);
    }
  }

  ghost predicate AlwaysFull(f: Function, code: Code, load: Inst, a: string) {
    forall w :: WalkTo(f, w, load) ==> a in WrittenAt(f, code, w, |w| - 1).filled
  }

  /** A load that always finds its cell filled always comes after a store to the cell. */
  lemma AlwaysFilled(f: Function, code: Code, load: Inst, a: string)
    requires a in code.spills && AlwaysFull(f, code, load, a)
    ensures FilledBefore(f, load, a)
  {
    forall w | WalkTo(f, w, load) ensures exists s: nat :: StoredSince(f, w, a, s) {
      var s := LastFill(f, code, w, |w| - 1, a);
      LiveIff(f, code, w, s, a);
      forall j | s < j < |w| - 1 ensures !AllocatesAt(f, w, j, a) {
        assert !Touches(f, w, j, a);
      }
      assert StoredSince(f, w, a, s);
    }
  }

  /** A walk that goes on as another did leaves a cell alone where the other did. */
  lemma UntouchedAfterSplice(f: Function, w: seq<Place>, s: nat, v: seq<Place>, u: seq<Place>, a: string, j: nat)
    requires v != [] && s < |w| && u == v + w[s + 1..] && |v| <= j < |u|
    ensures s + 1 + j - |v| < |w|
    ensures Touches(f, u, j, a) <==> Touches(f, w, s + 1 + j - |v|, a)
  {
  }

  /** The walk stores to the cell at s and leaves it alone from there on. */
  ghost predicate EndsUntouched(f: Function, w: seq<Place>, a: string, s: nat) {
    s < |w| - 1 && StoresAt(f, w, s, a) && forall j :: s < j < |w| - 1 ==> !Touches(f, w, j, a)
  }

  /** A store that leaves the cell filled at the end of the walk stored something written. */
  lemma FilledFromStore(f: Function, code: Code, u: seq<Place>, d: nat, a: string)
    requires a in code.spills && EndsUntouched(f, u, a, d)
    requires a in WrittenAt(f, code, u, |u| - 1).filled
    ensures OperandReady(WrittenAt(f, code, u, d), InstAt(f, u[d]).kind.value)
  {
    FilledKept(f, code, u, d + 1, |u| - 1, a);
    FilledIsLive(f, code, u, d + 1, a);
    StoreNeedsLive(f, code, u, d, a);
    OneFill(f, code, u, d, a);
  }

  /** Whatever walk reaches the last store can go on to the load without touching the cell again. */
  lemma GoOnToLoad(f: Function, load: Inst, a: string, w: seq<Place>, s: nat, v: seq<Place>) returns (u: seq<Place>)
    requires WalkTo(f, w, load) && EndsUntouched(f, w, a, s) && Walk(f, v) && v[|v| - 1] == w[s]
    ensures WalkTo(f, u, load) && |v| < |u| && u[..|v|] == v && EndsUntouched(f, u, a, |v| - 1)
  {
    WalkSplice(f, v, w, s);
    u := v + w[s + 1..];
    forall j | |v| <= j < |u| - 1 ensures !Touches(f, u, j, a) {
      UntouchedAfterSplice(f, w, s, v, u, a, j);
    }
  }

  lemma StoreWrites(f: Function, code: Code, load: Inst, a: string, w: seq<Place>, s: nat, v: seq<Place>)
    requires a in code.spills && WalkTo(f, w, load) && AlwaysFull(f, code, load, a) && EndsUntouched(f, w, a, s)
    requires Walk(f, v) && v[|v| - 1] == w[s]
    ensures OperandReady(WrittenAt(f, code, v, |v| - 1), InstAt(f, w[s]).kind.value)
  {
    var u := GoOnToLoad(f, load, a, w, s, v);
    assert u[|v| - 1] == v[|v| - 1];
    FilledFromStore(f, code, u, |v| - 1, a);
    WrittenPrefix(f, code, u, v, |v| - 1);
  }

  lemma {:induction false} StoreAlwaysWritten(m: IrModule, f: Function, load: Inst, a: string, w: seq<Place>, s: nat, value: Operand)
    requires a in CodeOf(m, f).spills && WalkTo(f, w, load) && AlwaysFull(f, CodeOf(m, f), load, a) && EndsUntouched(f, w, a, s)
    requires value == InstAt(f, w[s]).kind.value
    ensures AlwaysWritten(f, CodeOf(m, f), InstAt(f, w[s]), value)
  {
    var store := InstAt(f, w[s]);
    forall v | WalkTo(f, v, store) ensures OperandReady(WrittenAt(f, CodeOf(m, f), v, |v| - 1), value) {
      OneStore(m, f, a, v[|v| - 1], w[s]);
      StoreWrites(f, CodeOf(m, f), load, a, w, s, v);
    }
  }

  /** If a use always finds the chain's name written, everything on the chain before it is ordered. */
  lemma {:induction false} WrittenIsOrdered(m: IrModule, f: Function, o: ValueOrigin, path: seq<string>, i: nat, use: Inst, w: seq<Place>)
    requires SsaForm(m, f) && CopyChain(CodeOf(m, f), o, path) && i <= |path|
    requires AlwaysWritten(f, CodeOf(m, f), use, Before(path, i)) && WalkTo(f, w, use)
    ensures OperandOrdered(f, CodeOf(m, f), use, Before(path, i)) && NamesOrdered(f, CodeOf(m, f), path[..i])
    decreases i, 0
  {
    if i > 0 {
      var n := path[i - 1];
      if IsParam(CodeOf(m, f), n) {
        if i > 1 { ChainParamFirst(CodeOf(m, f), o, path, i - 1); }
      } else {
        AlwaysDefined(m, f, use, n);
        var v, inst := DefinitionOn(m, f, use, w, n);
        DefinitionAlwaysCopies(m, f, use, n, w, v, inst);
        CopyIsOrdered(m, f, o, path, i - 1, inst, v);
        NameIsOrdered(m, f, n, w[|v| - 1]);
      }
      OneMoreOrdered(f, CodeOf(m, f), path, i);
    }
  }

  lemma OneMoreOrdered(f: Function, code: Code, path: seq<string>, i: nat)
    requires 0 < i <= |path| && NamesOrdered(f, code, path[..i - 1]) && (IsParam(code, path[i - 1]) || NameOrdered(f, code, path[i - 1]))
    ensures NamesOrdered(f, code, path[..i])
  {
    forall k | 0 <= k < i && !IsParam(code, path[..i][k]) ensures NameOrdered(f, code, path[..i][k]) {
      assert k < i - 1 ==> path[..i - 1][k] == path[..i][k];
    }
  }

  lemma NameIsOrdered(m: IrModule, f: Function, n: string, p: Place)
    requires SingleAssignment(CodeOf(m, f)) && HasPlace(f, p) && InstAt(f, p).result == Some(n)
    requires CopyOrdered(f, CodeOf(m, f), InstAt(f, p))
    ensures NameOrdered(f, CodeOf(m, f), n)
  {
    forall inst | inst in CodeOf(m, f).insts && inst.result == Some(n) ensures CopyOrdered(f, CodeOf(m, f), inst) {
      OnlyDefinition(m, f, n, p, inst);
    }
  }

  lemma {:induction false} CopyIsOrdered(m: IrModule, f: Function, o: ValueOrigin, path: seq<string>, i: nat, inst: Inst, w: seq<Place>)
    requires SsaForm(m, f) && CopyChain(CodeOf(m, f), o, path) && i < |path|
    requires inst in CodeOf(m, f).insts && inst.result == Some(path[i]) && WalkTo(f, w, inst)
    requires AlwaysCopies(f, CodeOf(m, f), inst)
    ensures CopyOrdered(f, CodeOf(m, f), inst) && NamesOrdered(f, CodeOf(m, f), path[..i])
    decreases i, 2
  {
    ChainCopies(CodeOf(m, f), o, path, i, inst);
    assert Copied(CodeOf(m, f), inst).value == Before(path, i);
    match inst.kind
    case Cast(src) => WrittenIsOrdered(m, f, o, path, i, inst, w);
    case Load(src) => FillIsOrdered(m, f, o, path, i, inst, w, src.name);
  }

  lemma {:induction false} FillIsOrdered(m: IrModule, f: Function, o: ValueOrigin, path: seq<string>, i: nat, load: Inst, w: seq<Place>, a: string)
    requires SsaForm(m, f) && CopyChain(CodeOf(m, f), o, path) && i < |path|
    requires WalkTo(f, w, load) && load.kind == Load(Local(a)) && a in CodeOf(m, f).spills && CodeOf(m, f).spills[a] == Before(path, i)
    requires AlwaysFull(f, CodeOf(m, f), load, a)
    ensures CopyOrdered(f, CodeOf(m, f), load) && NamesOrdered(f, CodeOf(m, f), path[..i])
    decreases i, 1
  {
    AlwaysFilled(f, CodeOf(m, f), load, a);
    var v, store := StoreOfLoad(m, f, load, a, w);
    WrittenIsOrdered(m, f, o, path, i, store, v);
  }

  lemma LastFillOf(f: Function, code: Code, w: seq<Place>, a: string) returns (s: nat)
    requires w != [] && a in code.spills && a in WrittenAt(f, code, w, |w| - 1).filled
    ensures EndsUntouched(f, w, a, s)
  {
    s := LastFill(f, code, w, |w| - 1, a);
  }

  /** The one store to the cell of a load that always finds it filled: reached by a walk, and always of something written. */
  lemma StoreOfLoad(m: IrModule, f: Function, load: Inst, a: string, w: seq<Place>) returns (v: seq<Place>, store: Inst)
    requires a in CodeOf(m, f).spills && WalkTo(f, w, load) && AlwaysFull(f, CodeOf(m, f), load, a)
    ensures WalkTo(f, v, store) && AlwaysWritten(f, CodeOf(m, f), store, CodeOf(m, f).spills[a])
    ensures forall other :: other in CodeOf(m, f).insts && StoresTo(other, a) ==> other == store
  {
    var s := LastFillOf(f, CodeOf(m, f), w, a);
    StoreInCode(m, f, a, w[s]);
    StoreAlwaysWritten(m, f, load, a, w, s, CodeOf(m, f).spills[a]);
    v, store := WalkToPlace(f, w, s);
  }

  lemma StoreInCode(m: IrModule, f: Function, a: string, p: Place)
    requires a in CodeOf(m, f).spills && HasPlace(f, p) && StoresTo(InstAt(f, p), a)
    ensures InstAt(f, p).kind.value == CodeOf(m, f).spills[a]
    ensures forall other :: other in CodeOf(m, f).insts && StoresTo(other, a) ==> other == InstAt(f, p)
  {
    PlaceInCode(m, f, p);
    StoredIsSpilled(CodeOf(m, f), InstAt(f, p), a);
    forall other | other in CodeOf(m, f).insts && StoresTo(other, a) ensures other == InstAt(f, p) {
      OnlyStore(m, f, a, p, other);
    }
  }

  // ---- Both directions, and runs ----

  ghost predicate Reachable(f: Function, inst: Inst) {
    exists w :: WalkTo(f, w, inst)
  }

  lemma OrderedIsAlwaysWritten(m: IrModule, f: Function, o: ValueOrigin, path: seq<string>, use: Inst)
    requires SsaForm(m, f) && CopyChain(CodeOf(m, f), o, path) && ChainOrdered(f, CodeOf(m, f), path, use)
    ensures AlwaysWritten(f, CodeOf(m, f), use, Local(path[|path| - 1]))
  {
    forall w | WalkTo(f, w, use) ensures OperandReady(WrittenAt(f, CodeOf(m, f), w, |w| - 1), Local(path[|path| - 1])) {
      OrderedIsWritten(m, f, o, path, |path|, use, w);
    }
  }

  /** Walks always leave the end of a copy chain written exactly if each definition and spill store precedes its use. */
  lemma ChainOrderedIff(m: IrModule, f: Function, o: ValueOrigin, path: seq<string>, use: Inst)
    requires SsaForm(m, f) && CopyChain(CodeOf(m, f), o, path) && Reachable(f, use)
    ensures AlwaysWritten(f, CodeOf(m, f), use, Local(path[|path| - 1])) <==> ChainOrdered(f, CodeOf(m, f), path, use)
  {
    if AlwaysWritten(f, CodeOf(m, f), use, Local(path[|path| - 1])) {
      var w :| WalkTo(f, w, use);
      WrittenIsOrdered(m, f, o, path, |path|, use, w);
      assert path[..|path|] == path;
    }
    if ChainOrdered(f, CodeOf(m, f), path, use) {
      OrderedIsAlwaysWritten(m, f, o, path, use);
    }
  }

  /** In every run that reaches the instruction, the operand holds the value its origin stands for. */
  ghost predicate AlwaysExact(m: IrModule, f: Function, inst: Inst, operand: Operand) {
    forall r, k: nat :: IsRun(f, r) && ExecutedAt(f, r, k, inst) ==>
      Eval(r.states[k], operand) == RootValue(Solved(CodeOf(m, f)).OriginOf(operand))
  }

  lemma WrittenIsExact(m: IrModule, f: Function, inst: Inst, operand: Operand)
    requires SsaForm(m, f) && Rooted(CodeOf(m, f), operand) && AlwaysWritten(f, CodeOf(m, f), inst, operand)
    ensures AlwaysExact(m, f, inst, operand)
  {
    forall r, k: nat | IsRun(f, r) && ExecutedAt(f, r, k, inst)
      ensures Eval(r.states[k], operand) == RootValue(Solved(CodeOf(m, f)).OriginOf(operand))
    {
      ExecutedIsWalkTo(f, r, k, inst);
      ValueIffWritten(m, f, r, k, operand);
    }
  }

  lemma ExecutedIsWalkTo(f: Function, r: Run, k: nat, inst: Inst)
    requires IsRun(f, r) && ExecutedAt(f, r, k, inst)
    ensures WalkTo(f, Trace(r, k), inst) && |Trace(r, k)| - 1 == k
  {
    TraceIsWalk(f, r, k);
  }

  lemma ExactIsWritten(m: IrModule, f: Function, inst: Inst, operand: Operand, w: seq<Place>)
    requires SsaForm(m, f) && Rooted(CodeOf(m, f), operand) && AlwaysExact(m, f, inst, operand) && WalkTo(f, w, inst)
    ensures OperandReady(WrittenAt(f, CodeOf(m, f), w, |w| - 1), operand)
  {
    var r := WalkIsTrace(f, w);
    var k := |w| - 1;
    assert PlaceOf(r.states[k]) == w[k];
    assert ExecutedAt(f, r, k, inst);
    ValueIffWritten(m, f, r, k, operand);
  }

  lemma ExactIffWritten(m: IrModule, f: Function, inst: Inst, operand: Operand)
    requires SsaForm(m, f) && Rooted(CodeOf(m, f), operand)
    ensures AlwaysExact(m, f, inst, operand) <==> AlwaysWritten(f, CodeOf(m, f), inst, operand)
  {
    if AlwaysWritten(f, CodeOf(m, f), inst, operand) {
      WrittenIsExact(m, f, inst, operand);
    }
    if AlwaysExact(m, f, inst, operand) {
      forall w | WalkTo(f, w, inst) ensures OperandReady(WrittenAt(f, CodeOf(m, f), w, |w| - 1), operand) {
        ExactIsWritten(m, f, inst, operand, w);
      }
    }
  }

  /** The static condition: null itself, or a name at the end of an ordered chain. */
  ghost predicate Ordered(f: Function, code: Code, inst: Inst, operand: Operand) {
    operand.Null? || (operand.Local? && exists path :: OrderedChain(f, code, path, inst, operand))
  }

  ghost predicate OrderedChain(f: Function, code: Code, path: seq<string>, inst: Inst, operand: Operand) {
    && CopyChain(code, Solved(code).OriginOf(operand), path) && Local(path[|path| - 1]) == operand
    && ChainOrdered(f, code, path, inst)
  }

  /**
   * A reachable instruction finds, in every run, exactly the argument or null its operand carries, if and only if on every
   * walk from the entry each definition and each spill store on the copy chain precedes its use.
   */
  lemma ExactIffOrdered(m: IrModule, f: Function, inst: Inst, operand: Operand)
    requires SsaForm(m, f) && Rooted(CodeOf(m, f), operand) && Reachable(f, inst)
    ensures AlwaysExact(m, f, inst, operand) <==> Ordered(f, CodeOf(m, f), inst, operand)
  {
    var code := CodeOf(m, f);
    ExactIffWritten(m, f, inst, operand);
    if operand.Local? {
      AliasesExact(code, Solved(code).OriginOf(operand), operand.name);
      var path :| CopyChain(code, Solved(code).OriginOf(operand), path) && path[|path| - 1] == operand.name;
      ChainOrderedIff(m, f, Solved(code).OriginOf(operand), path, inst);
      assert OrderedChain(f, code, path, inst, operand) <==> ChainOrdered(f, code, path, inst);
      if other :| OrderedChain(f, code, other, inst, operand) {
        ChainOrderedIff(m, f, Solved(code).OriginOf(operand), other, inst);
      }
    }
  }

  /** The condition is enough also where nothing reaches the instruction. */
  lemma OrderedIsExact(m: IrModule, f: Function, inst: Inst, operand: Operand)
    requires SsaForm(m, f) && Rooted(CodeOf(m, f), operand) && Ordered(f, CodeOf(m, f), inst, operand)
    ensures AlwaysExact(m, f, inst, operand)
  {
    ExactIffWritten(m, f, inst, operand);
    if operand.Local? {
      var path :| OrderedChain(f, CodeOf(m, f), path, inst, operand);
      OrderedIsAlwaysWritten(m, f, Solved(CodeOf(m, f)).OriginOf(operand), path, inst);
    }
  }

  /** What an instruction reads from a rooted operand: its root's value, or nothing if the chain is out of order. */
  ghost predicate ExactUnlessUnordered(m: IrModule, f: Function, s: State, inst: Inst, operand: Operand) {
    || Eval(s, operand) == RootValue(Solved(CodeOf(m, f)).OriginOf(operand))
    || (Eval(s, operand).Uninit? && !Ordered(f, CodeOf(m, f), inst, operand))
  }

  lemma RunReads(m: IrModule, f: Function, r: Run, k: nat, inst: Inst, operand: Operand)
    requires SsaForm(m, f) && IsRun(f, r) && ExecutedAt(f, r, k, inst) && Rooted(CodeOf(m, f), operand)
    ensures ExactUnlessUnordered(m, f, r.states[k], inst, operand)
  {
    ValueIffWritten(m, f, r, k, operand);
    if Ordered(f, CodeOf(m, f), inst, operand) {
      OrderedIsExact(m, f, inst, operand);
    }
  }

  /** A spill cell whose allocation precedes the instruction on every walk has its address there. */
  lemma AddressIsWritten(m: IrModule, f: Function, r: Run, k: nat, inst: Inst, a: string)
    requires SsaForm(m, f) && IsRun(f, r) && ExecutedAt(f, r, k, inst)
    requires a in CodeOf(m, f).spills && WrittenBefore(f, inst, a)
    ensures Register(r.states[k], a).Address?
  {
    var code, w := CodeOf(m, f), Trace(r, k);
    ExecutedIsWalkTo(f, r, k, inst);
    var i :| 0 <= i < |w| - 1 && DefinesAt(f, w, i, a);
    PlaceInCode(m, f, w[i]);
    DefinesSpill(code, InstAt(f, w[i]), a);
    assert AllocatesAt(f, w, i, a);
    LiveIff(f, code, w, k, a);
    RunAgrees(m, f, r, k);
    RunHolds(m, f, r, k);
    assert CellAgrees(code, r.states[k], WrittenAt(f, code, w, k), a);
  }
}
