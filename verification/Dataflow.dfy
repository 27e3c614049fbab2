/** Value origins, slots and caller-owned pointers of one function, iterated together. */
module Dataflow {
  import opened Support
  import opened ForeignIr
  import opened UseIndex

  datatype ValueOrigin =
    | Param(index: nat)
    | FromNull
    | SlotLoad(slot: SlotId)
    | Unknown

  /** What the analysis of one function reads: module globals, parameters, instructions, spill cells. */
  datatype Code = Code(globals: map<string, GlobalVar>, params: seq<string>, insts: seq<Inst>, spills: map<string, Operand>)

  ghost function CodeOf(m: IrModule, f: Function): Code {
    Code(m.globals, f.params, Insts(f), SpillMap(Insts(f)))
  }

  datatype Tables = Tables(origins: map<string, ValueOrigin>, slots: map<string, SlotId>, callerOwned: set<string>) {

    function OriginOf(operand: Operand): ValueOrigin {
      match operand
      case Null => FromNull
      case Local(name) => if name in origins then origins[name] else Unknown
      case _ => Unknown
    }

    function PointerSlot(code: Code, pointer: Operand): Option<SlotId> {
      match pointer
      case Global(symbol) =>
        if symbol in code.globals && !code.globals[symbol].isConstant
        then Some(SlotId(GlobalSlot(symbol), [])) else None
      case Local(name) => if name in slots then Some(slots[name]) else None
      case _ => None
    }

    function GepSlot(code: Code, base: Operand, baseType: string, indices: seq<string>): Option<SlotId> {
      match base
      case Global(symbol) =>
        if symbol in code.globals && !code.globals[symbol].isConstant
        then Some(SlotId(GlobalSlot(symbol), indices)) else None
      case Local(name) =>
        if name in slots then Some(slots[name].Extend(indices))
        else if StartsWithPercent(baseType) then Some(SlotId(StructField(baseType), indices))
        else None
      case _ => None
    }

    predicate BaseIsCallerOwned(base: Operand) {
      match base
      case Global(_) => true
      case Local(name) => (name in origins && origins[name].Param?) || name in callerOwned
      case _ => false
    }

    predicate IsCallerOwned(pointer: Operand) {
      match pointer
      case Global(_) => true
      case Local(name) => name in callerOwned
      case _ => false
    }

    function LoadOrigin(code: Code, src: Operand): ValueOrigin {
      if src.Local? && src.name in code.spills then OriginOf(code.spills[src.name])
      else match PointerSlot(code, src)
           case Some(slot) => SlotLoad(slot)
           case None => Unknown
    }

    function ParamAliases(index: nat): set<string> {
      set name | name in origins && origins[name] == Param(index)
    }

    function WithSlot(name: string, slot: Option<SlotId>): Tables {
      if slot.Some? then this.(slots := slots[name := slot.value]) else this
    }

    function WithOwned(name: string, owned: bool): Tables {
      if owned then this.(callerOwned := callerOwned + {name}) else this
    }

    function WithOrigin(name: string, origin: ValueOrigin): Tables {
      this.(origins := origins[name := origin])
    }
  }

  /** One instruction's contribution. */
  function Apply(code: Code, inst: Inst, t: Tables): Tables {
    if inst.result.None? then t
    else
      var name := inst.result.value;
      match inst.kind
      case Gep(base, baseType, indices) =>
        t.WithSlot(name, t.GepSlot(code, base, baseType, indices)).WithOwned(name, t.BaseIsCallerOwned(base))
      case Cast(src) =>
        t.WithSlot(name, t.PointerSlot(code, src)).WithOwned(name, t.BaseIsCallerOwned(src))
          .WithOrigin(name, t.OriginOf(src))
      case Load(src) => t.WithOrigin(name, t.LoadOrigin(code, src))
      case Alloca => t
      case _ => t.WithOrigin(name, Unknown)
  }

  /** The first k instructions of a sweep. */
  function Sweep(code: Code, k: nat, t: Tables): Tables
    requires k <= |code.insts|
  {
    if k == 0 then t else Apply(code, code.insts[k - 1], Sweep(code, k - 1, t))
  }

  function Rounds(code: Code, n: nat, t: Tables): Tables {
    if n == 0 then t else Sweep(code, |code.insts|, Rounds(code, n - 1, t))
  }

  function InitialOrigins(params: seq<string>): map<string, ValueOrigin> {
    if params == [] then map[]
    else
      var last := |params| - 1;
      var origins := InitialOrigins(params[..last]);
      if params[last] != "" then origins[params[last] := Param(last)] else origins
  }

  function InitialTables(code: Code): Tables {
    Tables(InitialOrigins(code.params), map[], {})
  }

  function Solved(code: Code): Tables {
    Rounds(code, |code.insts| + 1, InitialTables(code))
  }

  lemma {:induction false} FixpointStays(code: Code, t: Tables, r: nat, n: nat)
    requires Sweep(code, |code.insts|, Rounds(code, r, t)) == Rounds(code, r, t) && r <= n
    ensures Rounds(code, n, t) == Rounds(code, r, t)
    decreases n
  {
    if r < n {
      FixpointStays(code, t, r, n - 1);
    }
  }

  // ---- Deriving a name from a parameter or from null ----

  ghost predicate IsRootedOrigin(o: ValueOrigin) {
    o.Param? || o.FromNull?
  }

  /** The operand whose value the result takes over unchanged: a cast source, or the value spilled to the loaded cell. */
  function Copied(code: Code, inst: Inst): Option<Operand> {
    match inst.kind
    case Cast(src) => Some(src)
    case Load(src) => if src.Local? && src.name in code.spills then Some(code.spills[src.name]) else None
    case _ => None
  }

  ghost function Roots(code: Code, o: ValueOrigin): set<string> {
    if o.Param? && o.index < |code.params| && code.params[o.index] != "" then {code.params[o.index]} else {}
  }

  predicate RootedIn(operand: Operand, o: ValueOrigin, names: set<string>) {
    (operand.Null? && o.FromNull?) || (operand.Local? && operand.name in names)
  }

  ghost predicate CopiesInto(code: Code, j: nat, name: string, o: ValueOrigin, names: set<string>) {
    && j < |code.insts| && code.insts[j].result == Some(name)
    && Copied(code, code.insts[j]).Some? && RootedIn(Copied(code, code.insts[j]).value, o, names)
  }

  ghost predicate Obtains(code: Code, name: string, o: ValueOrigin, names: set<string>) {
    exists j: nat :: CopiesInto(code, j, name, o, names)
  }

  ghost function CopyStep(code: Code, o: ValueOrigin): set<string> -> set<string> {
    (names: set<string>) => set name | name in ResultNames(code.insts) && Obtains(code, name, o, names)
  }

  /** Names that hold the root after at most k copies. */
  ghost function Derived(code: Code, o: ValueOrigin, k: nat): set<string> {
    Grow(CopyStep(code, o), Roots(code, o), k)
  }

  /** Every name derivable from the root, by any number of copies. */
  ghost function Derivable(code: Code, o: ValueOrigin): set<string> {
    Derived(code, o, |code.insts|)
  }

  lemma DerivedNext(code: Code, o: ValueOrigin, k: nat, name: string)
    ensures name in Derived(code, o, k + 1) <==>
      name in Derived(code, o, k) || (name in ResultNames(code.insts) && Obtains(code, name, o, Derived(code, o, k)))
  {
  }

  lemma DerivedStable(code: Code, o: ValueOrigin, k: nat)
    ensures Derived(code, o, k) <= Derivable(code, o)
    ensures k >= |code.insts| ==> Derived(code, o, k) == Derivable(code, o)
  {
    var universe := Roots(code, o) + ResultNames(code.insts);
    assert Bounded(CopyStep(code, o), universe);
    GrowStabilises(CopyStep(code, o), Roots(code, o), universe, |code.insts|, k);
  }

  /** Derivability is closed under copying. */
  lemma DerivableClosed(code: Code, o: ValueOrigin, j: nat, name: string)
    requires CopiesInto(code, j, name, o, Derivable(code, o))
    ensures name in Derivable(code, o)
  {
    var n := |code.insts|;
    assert Obtains(code, name, o, Derived(code, o, n)) && name in ResultNames(code.insts);
    DerivedNext(code, o, n, name);
    DerivedStable(code, o, n + 1);
  }

  lemma ObtainsMonotone(code: Code, name: string, o: ValueOrigin, names: set<string>, more: set<string>)
    requires Obtains(code, name, o, names) && names <= more
    ensures Obtains(code, name, o, more)
  {
    var j: nat :| CopiesInto(code, j, name, o, names);
    assert CopiesInto(code, j, name, o, more);
  }

  lemma {:induction false} DerivedInverse(code: Code, o: ValueOrigin, k: nat, name: string)
    requires name in Derived(code, o, k)
    ensures name in Roots(code, o) || (k > 0 && Obtains(code, name, o, Derived(code, o, k - 1)))
  {
    if k > 0 && name in Derived(code, o, k - 1) {
      DerivedInverse(code, o, k - 1, name);
      if name !in Roots(code, o) {
        ObtainsMonotone(code, name, o, Derived(code, o, k - 2), Derived(code, o, k - 1));
      }
    }
  }

  /** Some instruction copies register a into register b. */
  ghost predicate Link(code: Code, a: string, b: string) {
    exists j :: 0 <= j < |code.insts| && code.insts[j].result == Some(b) && Copied(code, code.insts[j]) == Some(Local(a))
  }

  ghost predicate NullCopy(code: Code, a: string) {
    exists j :: 0 <= j < |code.insts| && code.insts[j].result == Some(a) && Copied(code, code.insts[j]) == Some(Null)
  }

  /** A chain of names, each copied from the one before, that starts at the root. */
  ghost predicate CopyChain(code: Code, o: ValueOrigin, path: seq<string>) {
    && path != []
    && (path[0] in Roots(code, o) || (o.FromNull? && NullCopy(code, path[0])))
    && forall k :: 0 <= k < |path| - 1 ==> Link(code, path[k], path[k + 1])
  }

  lemma ObtainsMeans(code: Code, name: string, o: ValueOrigin, names: set<string>) returns (a: string)
    requires Obtains(code, name, o, names) && !(o.FromNull? && NullCopy(code, name))
    ensures a in names && Link(code, a, name)
  {
    var j: nat :| CopiesInto(code, j, name, o, names);
    a := Copied(code, code.insts[j]).value.name;
  }

  lemma LinkObtains(code: Code, a: string, name: string, o: ValueOrigin, names: set<string>)
    requires Link(code, a, name) && a in names
    ensures Obtains(code, name, o, names) && name in ResultNames(code.insts)
  {
    var j :| 0 <= j < |code.insts| && code.insts[j].result == Some(name) && Copied(code, code.insts[j]) == Some(Local(a));
    assert CopiesInto(code, j, name, o, names);
  }

  lemma LinkExtends(code: Code, a: string, name: string, o: ValueOrigin, k: nat)
    requires Link(code, a, name) && a in Derived(code, o, k)
    ensures name in Derived(code, o, k + 1)
  {
    LinkObtains(code, a, name, o, Derived(code, o, k));
  }

  lemma {:induction false} DerivedHasChain(code: Code, o: ValueOrigin, k: nat, name: string) returns (path: seq<string>)
    requires name in Derived(code, o, k)
    ensures CopyChain(code, o, path) && path[|path| - 1] == name
  {
    if name in Roots(code, o) || (o.FromNull? && NullCopy(code, name)) {
      path := [name];
    } else {
      DerivedInverse(code, o, k, name);
      var a := ObtainsMeans(code, name, o, Derived(code, o, k - 1));
      var before := DerivedHasChain(code, o, k - 1, a);
      path := before + [name];
    }
  }

  lemma {:induction false} ChainIsDerived(code: Code, o: ValueOrigin, path: seq<string>)
    requires CopyChain(code, o, path)
    ensures path[|path| - 1] in Derived(code, o, |path|)
    decreases |path|
  {
    var last := |path| - 1;
    if last > 0 {
      assert Link(code, path[last - 1], path[last - 1 + 1]);
      ChainIsDerived(code, o, path[..last]);
      LinkExtends(code, path[last - 1], path[last], o, last);
    } else if path[0] in Roots(code, o) {
      RootsDerived(code, o, 1, path[0]);
    } else {
      var j :| 0 <= j < |code.insts| && code.insts[j].result == Some(path[0]) && Copied(code, code.insts[j]) == Some(Null);
      assert CopiesInto(code, j, path[0], o, Derived(code, o, 0));
    }
  }

  /** Derivable names are exactly the ends of copy chains, however long. */
  lemma DerivableIffChain(code: Code, o: ValueOrigin, name: string)
    ensures name in Derivable(code, o)
      <==> exists path :: CopyChain(code, o, path) && path[|path| - 1] == name
  {
    if name in Derivable(code, o) {
      var path := DerivedHasChain(code, o, |code.insts|, name);
    }
    if path :| CopyChain(code, o, path) && path[|path| - 1] == name {
      ChainIsDerived(code, o, path);
      DerivedStable(code, o, |path|);
    }
  }

  // ---- The tables hold exactly the derivable names ----

  ghost predicate DistinctParams(params: seq<string>) {
    forall i, j :: 0 <= i < j < |params| && params[i] == params[j] ==> params[i] == ""
  }

  /** Single assignment: every register has one definition, and parameters have none. */
  ghost predicate SingleAssignment(code: Code) {
    && DistinctParams(code.params)
    && (forall j, k :: 0 <= j < k < |code.insts| && code.insts[j].result.Some? ==>
          code.insts[j].result != code.insts[k].result)
    && (forall j :: 0 <= j < |code.insts| && code.insts[j].result.Some? ==>
          code.insts[j].result.value !in code.params)
  }

  /** No name is given a root it cannot be derived from. */
  ghost predicate OnlyDerivable(code: Code, t: Tables) {
    forall name :: name in t.origins && IsRootedOrigin(t.origins[name]) ==> name in Derivable(code, t.origins[name])
  }

  ghost predicate HasDerived(code: Code, t: Tables, r: nat) {
    forall o, name :: IsRootedOrigin(o) && name in Derived(code, o, r) ==> t.OriginOf(Local(name)) == o
  }

  ghost predicate Delivered(code: Code, t: Tables, r: nat, o: ValueOrigin, j: nat)
    requires j < |code.insts|
  {
    code.insts[j].result.Some? && code.insts[j].result.value in Derived(code, o, r) ==>
      t.OriginOf(Local(code.insts[j].result.value)) == o
  }

  /** The first k instructions have already delivered the names at distance r. */
  ghost predicate DeliveredUpTo(code: Code, t: Tables, r: nat, k: nat)
    requires k <= |code.insts|
  {
    forall o, j | IsRootedOrigin(o) && 0 <= j < k :: Delivered(code, t, r, o, j)
  }

  lemma {:induction false} InitialOriginsExact(params: seq<string>)
    requires DistinctParams(params)
    ensures forall name :: name in InitialOrigins(params) ==>
      InitialOrigins(params)[name].Param? && InitialOrigins(params)[name].index < |params|
      && name != "" && params[InitialOrigins(params)[name].index] == name
    ensures forall i :: 0 <= i < |params| && params[i] != "" ==>
      params[i] in InitialOrigins(params) && InitialOrigins(params)[params[i]] == Param(i)
  {
    if params != [] {
      InitialOriginsExact(params[..|params| - 1]);
    }
  }

  lemma InitialTablesHold(code: Code)
    requires SingleAssignment(code)
    ensures OnlyDerivable(code, InitialTables(code)) && HasDerived(code, InitialTables(code), 0)
  {
    InitialOriginsExact(code.params);
    var t := InitialTables(code);
    forall name | name in t.origins && IsRootedOrigin(t.origins[name])
      ensures name in Derivable(code, t.origins[name])
    {
      assert name in Derived(code, t.origins[name], 0);
      DerivedStable(code, t.origins[name], 0);
    }
  }

  /** The origin one instruction gives its result, if it gives one. */
  function GivenOrigin(code: Code, inst: Inst, t: Tables): ValueOrigin {
    match inst.kind
    case Cast(src) => t.OriginOf(src)
    case Load(src) => t.LoadOrigin(code, src)
    case _ => Unknown
  }

  lemma ApplyOrigins(code: Code, inst: Inst, t: Tables, name: string)
    ensures inst.result != Some(name) || inst.kind.Gep? || inst.kind.Alloca? ==>
      Apply(code, inst, t).OriginOf(Local(name)) == t.OriginOf(Local(name))
      && (name in Apply(code, inst, t).origins <==> name in t.origins)
    ensures inst.result == Some(name) && !inst.kind.Gep? && !inst.kind.Alloca? ==>
      Apply(code, inst, t).OriginOf(Local(name)) == GivenOrigin(code, inst, t)
  {
  }

  lemma GivenIsCopied(code: Code, inst: Inst, t: Tables)
    ensures Copied(code, inst).Some? ==> GivenOrigin(code, inst, t) == t.OriginOf(Copied(code, inst).value)
    ensures Copied(code, inst).None? ==> !IsRootedOrigin(GivenOrigin(code, inst, t))
  {
  }

  lemma ApplyKeepsOnly(code: Code, k: nat, t: Tables)
    requires k < |code.insts| && OnlyDerivable(code, t)
    ensures OnlyDerivable(code, Apply(code, code.insts[k], t))
  {
    var inst := code.insts[k];
    var next := Apply(code, inst, t);
    forall name | name in next.origins && IsRootedOrigin(next.origins[name])
      ensures name in Derivable(code, next.origins[name])
    {
      ApplyOrigins(code, inst, t, name);
      if inst.result == Some(name) && !inst.kind.Gep? && !inst.kind.Alloca? {
        GivenIsCopied(code, inst, t);
        assert CopiesInto(code, k, name, next.origins[name], Derivable(code, next.origins[name]));
        DerivableClosed(code, next.origins[name], k, name);
      }
    }
  }

  lemma UniqueCopy(code: Code, k: nat, name: string, o: ValueOrigin, names: set<string>)
    requires SingleAssignment(code) && k < |code.insts| && code.insts[k].result == Some(name)
    requires name in Roots(code, o) || Obtains(code, name, o, names)
    ensures CopiesInto(code, k, name, o, names)
  {
    var j: nat :| CopiesInto(code, j, name, o, names);
    assert j == k;
  }

  lemma SourceHasRoot(code: Code, t: Tables, o: ValueOrigin, r: nat, source: Operand)
    requires IsRootedOrigin(o) && HasDerived(code, t, r) && RootedIn(source, o, Derived(code, o, r))
    ensures t.OriginOf(source) == o
  {
  }

  /** A name within reach keeps its root whenever its definition is visited again. */
  lemma VisitDelivers(code: Code, k: nat, t: Tables, o: ValueOrigin, r: nat, name: string)
    requires SingleAssignment(code) && k < |code.insts| && IsRootedOrigin(o)
    requires code.insts[k].result == Some(name) && name in Derived(code, o, r + 1) && HasDerived(code, t, r)
    ensures Apply(code, code.insts[k], t).OriginOf(Local(name)) == o
  {
    DerivedInverse(code, o, r + 1, name);
    UniqueCopy(code, k, name, o, Derived(code, o, r));
    SourceHasRoot(code, t, o, r, Copied(code, code.insts[k]).value);
    GivenIsCopied(code, code.insts[k], t);
    ApplyOrigins(code, code.insts[k], t, name);
  }

  lemma ApplyDelivers(code: Code, k: nat, t: Tables, r: nat)
    requires SingleAssignment(code) && k < |code.insts|
    requires HasDerived(code, t, r) && DeliveredUpTo(code, t, r + 1, k)
    ensures HasDerived(code, Apply(code, code.insts[k], t), r)
    ensures DeliveredUpTo(code, Apply(code, code.insts[k], t), r + 1, k + 1)
  {
    var inst := code.insts[k];
    var next := Apply(code, inst, t);
    forall o, name | IsRootedOrigin(o) && name in Derived(code, o, r)
      ensures next.OriginOf(Local(name)) == o
    {
      ApplyOrigins(code, inst, t, name);
      if inst.result == Some(name) {
        assert name in Derived(code, o, r + 1);
        VisitDelivers(code, k, t, o, r, name);
      }
    }
    forall o, j: nat {:trigger Delivered(code, next, r + 1, o, j)} | IsRootedOrigin(o) && j < k + 1
      ensures Delivered(code, next, r + 1, o, j)
    {
      if code.insts[j].result.Some? && code.insts[j].result.value in Derived(code, o, r + 1) {
        var name := code.insts[j].result.value;
        ApplyOrigins(code, inst, t, name);
        if j == k {
          VisitDelivers(code, k, t, o, r, name);
        } else {
          assert Delivered(code, t, r + 1, o, j);
        }
      }
    }
  }

  ghost predicate MidSweep(code: Code, t: Tables, r: nat, k: nat)
    requires k <= |code.insts|
  {
    OnlyDerivable(code, t) && HasDerived(code, t, r) && DeliveredUpTo(code, t, r + 1, k)
  }

  lemma MidSweepStep(code: Code, t: Tables, r: nat, last: nat, k: nat) returns (next: Tables)
    requires SingleAssignment(code) && last < |code.insts| && k == last + 1 && MidSweep(code, t, r, last)
    ensures next == Apply(code, code.insts[last], t) && MidSweep(code, next, r, k)
  {
    next := Apply(code, code.insts[last], t);
    ApplyKeepsOnly(code, last, t);
    ApplyDelivers(code, last, t, r);
  }

  lemma {:induction false} SweepInvariants(code: Code, k: nat, t: Tables, r: nat) returns (next: Tables)
    requires SingleAssignment(code) && k <= |code.insts| && MidSweep(code, t, r, 0)
    ensures next == Sweep(code, k, t) && MidSweep(code, next, r, k)
  {
    if k == 0 {
      next := t;
    } else {
      var before := SweepInvariants(code, k - 1, t, r);
      next := MidSweepStep(code, before, r, k - 1, k);
    }
  }

  /** One full sweep reaches one copy further, whatever the textual order. */
  lemma SweepReaches(code: Code, t: Tables, r: nat)
    requires SingleAssignment(code) && OnlyDerivable(code, t) && HasDerived(code, t, r)
    ensures OnlyDerivable(code, Sweep(code, |code.insts|, t)) && HasDerived(code, Sweep(code, |code.insts|, t), r + 1)
  {
    var next := SweepInvariants(code, |code.insts|, t, r);
    forall o, name | IsRootedOrigin(o) && name in Derived(code, o, r + 1)
      ensures next.OriginOf(Local(name)) == o
    {
      DerivedInverse(code, o, r + 1, name);
      if name in Roots(code, o) {
        RootsDerived(code, o, r, name);
      } else {
        var j: nat :| CopiesInto(code, j, name, o, Derived(code, o, r));
        assert Delivered(code, next, r + 1, o, j);
      }
    }
  }

  lemma {:induction false} RootsDerived(code: Code, o: ValueOrigin, k: nat, name: string)
    requires name in Roots(code, o)
    ensures name in Derived(code, o, k)
  {
    if k > 0 { RootsDerived(code, o, k - 1, name); }
  }

  lemma {:induction false} RoundsReach(code: Code, n: nat) returns (t: Tables)
    requires SingleAssignment(code)
    ensures t == Rounds(code, n, InitialTables(code)) && OnlyDerivable(code, t) && HasDerived(code, t, n)
  {
    if n == 0 {
      t := InitialTables(code);
      InitialTablesHold(code);
    } else {
      var before := RoundsReach(code, n - 1);
      SweepReaches(code, before, n - 1);
      t := Sweep(code, |code.insts|, before);
    }
  }

  /** Alias tracking is exact: a name carries a parameter or null exactly when a copy chain leads to it. */
  lemma AliasesExact(code: Code, o: ValueOrigin, name: string)
    requires SingleAssignment(code) && IsRootedOrigin(o)
    ensures Solved(code).OriginOf(Local(name)) == o
      <==> exists path :: CopyChain(code, o, path) && path[|path| - 1] == name
  {
    SolvedIffDerivable(code, o, name);
    DerivableIffChain(code, o, name);
  }

  lemma SolvedIffDerivable(code: Code, o: ValueOrigin, name: string)
    requires SingleAssignment(code) && IsRootedOrigin(o)
    ensures Solved(code).OriginOf(Local(name)) == o <==> name in Derivable(code, o)
  {
    var n := |code.insts|;
    var t := RoundsReach(code, n + 1);
    DerivedStable(code, o, n + 1);
  }

  lemma ParamAliasesExact(code: Code, index: nat)
    requires SingleAssignment(code)
    ensures Solved(code).ParamAliases(index) == Derivable(code, Param(index))
  {
    forall name ensures name in Solved(code).ParamAliases(index) <==> name in Derivable(code, Param(index)) {
      SolvedIffDerivable(code, Param(index), name);
    }
  }

  /** A copy has the root of what it copies, and a rooted name is a parameter or such a copy. */
  lemma RootedCopies(code: Code, o: ValueOrigin, j: nat)
    requires SingleAssignment(code) && IsRootedOrigin(o) && j < |code.insts| && code.insts[j].result.Some?
    ensures Solved(code).OriginOf(Local(code.insts[j].result.value)) == o
      <==> Copied(code, code.insts[j]).Some? && Solved(code).OriginOf(Copied(code, code.insts[j]).value) == o
  {
    var name := code.insts[j].result.value;
    SolvedIffDerivable(code, o, name);
    if Copied(code, code.insts[j]).Some? {
      var source := Copied(code, code.insts[j]).value;
      if source.Local? { SolvedIffDerivable(code, o, source.name); }
      if Solved(code).OriginOf(source) == o {
        assert CopiesInto(code, j, name, o, Derivable(code, o));
        DerivableClosed(code, o, j, name);
      }
    }
    if name in Derivable(code, o) {
      assert Derivable(code, o) == Derived(code, o, |code.insts| + 1) by { DerivedStable(code, o, |code.insts| + 1); }
      DerivedInverse(code, o, |code.insts| + 1, name);
      UniqueCopy(code, j, name, o, Derivable(code, o));
    }
  }

  lemma RootedParam(code: Code, index: nat)
    requires SingleAssignment(code) && index < |code.params| && code.params[index] != ""
    ensures Solved(code).OriginOf(Local(code.params[index])) == Param(index)
  {
    RootsDerived(code, Param(index), |code.insts|, code.params[index]);
    SolvedIffDerivable(code, Param(index), code.params[index]);
  }
}
