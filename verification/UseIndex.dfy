/** Where each register is used, and which stack cells are only ever spilled to once. */
module UseIndex {
  import opened Support
  import opened ForeignIr

  // ---- Registers mentioned in the text of an instruction the reader does not model ----

  predicate IsNameChar(c: char) {
    'a' <= c <= 'z' || 'A' <= c <= 'Z' || '0' <= c <= '9' || c == '.' || c == '_' || c == '$' || c == '-'
  }

  function NameEnd(text: string, i: nat): (end: nat)
    requires i <= |text|
    ensures i <= end <= |text|
    ensures forall k :: i <= k < end ==> IsNameChar(text[k])
    ensures end < |text| ==> !IsNameChar(text[end])
    decreases |text| - i
  {
    if i < |text| && IsNameChar(text[i]) then NameEnd(text, i + 1) else i
  }

  function LocalsFrom(text: string, i: nat): seq<Operand>
    requires i <= |text|
    decreases |text| - i
  {
    if i == |text| then []
    else if text[i] != '%' then LocalsFrom(text, i + 1)
    else
      var end := NameEnd(text, i + 1);
      (if end > i + 1 then [Local(text[i + 1..end])] else []) + LocalsFrom(text, end)
  }

  function LocalsInText(text: string): seq<Operand> {
    LocalsFrom(text, 0)
  }

  /** A percent sign at i followed by a maximal non-empty run of name characters. */
  ghost predicate NameAt(text: string, i: nat, name: string) {
    && i < |text| && text[i] == '%' && name != "" && i + 1 + |name| <= |text|
    && text[i + 1..i + 1 + |name|] == name
    && (forall k :: i < k <= i + |name| ==> IsNameChar(text[k]))
    && (i + 1 + |name| < |text| ==> !IsNameChar(text[i + 1 + |name|]))
  }

  lemma {:induction false} LocalsFromExact(text: string, i: nat, name: string)
    requires i <= |text|
    ensures Local(name) in LocalsFrom(text, i) <==> exists j :: i <= j && NameAt(text, j, name)
    decreases |text| - i
  {
    if i < |text| {
      if text[i] != '%' {
        LocalsFromExact(text, i + 1, name);
      } else {
        var end := NameEnd(text, i + 1);
        LocalsFromExact(text, end, name);
        if end > i + 1 {
          assert NameAt(text, i, text[i + 1..end]);
        }
        forall j | i <= j && NameAt(text, j, name)
          ensures j >= end || (j == i && name == text[i + 1..end])
        {
        }
      }
    }
  }

  /** The text scan finds exactly the maximal register names: no use is missed. */
  lemma LocalsInTextExact(text: string, name: string)
    ensures Local(name) in LocalsInText(text) <==> exists j :: NameAt(text, j, name)
  {
    LocalsFromExact(text, 0, name);
  }

  method ScanLocals(text: string) returns (locals: seq<Operand>)
    ensures locals == LocalsInText(text)
  {
    locals := [];
    var index := 0;
    while index < |text|
      invariant index <= |text|
      invariant locals + LocalsFrom(text, index) == LocalsInText(text)
    {
      if text[index] != '%' {
        index := index + 1;
        continue;
      }
      var start := index + 1;
      var end := start;
      while end < |text| && IsNameChar(text[end])
        invariant start <= end <= |text|
        invariant NameEnd(text, end) == NameEnd(text, start)
      {
        end := end + 1;
      }
      if end > start {
        locals := locals + [Local(text[start..end])];
      }
      index := end;
    }
  }

  // ---- Uses ----

  function OperandsOf(inst: Inst): seq<Operand> {
    match inst.kind
    case Store(value, dest) => [value, dest]
    case Load(src) => [src]
    case Cast(src) => [src]
    case Gep(base, _, _) => [base]
    case Compare(operands) => operands
    case Call(callee, args) => [callee] + args
    case Alloca => []
    case _ => LocalsInText(inst.text)
  }

  predicate Mentions(inst: Inst, name: string) {
    Local(name) in OperandsOf(inst)
  }

  function UsesOf(uses: map<string, seq<nat>>, name: string): seq<nat> {
    if name in uses then uses[name] else []
  }

  ghost function Count<T>(s: seq<T>, x: T): nat {
    multiset(s)[x]
  }

  lemma CountSnoc<T>(s: seq<T>, x: T, y: T)
    ensures Count(s + [x], y) == Count(s, y) + (if x == y then 1 else 0)
  {
  }

  /** How often the first n instructions use a register, instruction by instruction. */
  ghost function UseCount(insts: seq<Inst>, n: nat, name: string, k: nat): nat
    requires n <= |insts|
  {
    if k < n then Count(OperandsOf(insts[k]), Local(name)) else 0
  }

  ghost predicate IsUseIndex(insts: seq<Inst>, n: nat, uses: map<string, seq<nat>>)
    requires n <= |insts|
  {
    forall name, k: nat :: Count(UsesOf(uses, name), k) == UseCount(insts, n, name, k)
  }

  ghost predicate UsesAdded(before: map<string, seq<nat>>, uses: map<string, seq<nat>>, index: nat, operands: seq<Operand>) {
    forall name, k: nat ::
      Count(UsesOf(uses, name), k) ==
      Count(UsesOf(before, name), k) + (if k == index then Count(operands, Local(name)) else 0)
  }

  lemma NothingAdded(before: map<string, seq<nat>>, index: nat)
    ensures UsesAdded(before, before, index, [])
  {
    forall name: string ensures Count<Operand>([], Local(name)) == 0 { }
  }

  lemma UseAddedAt(uses: map<string, seq<nat>>, index: nat, name: string, other: string, k: nat)
    ensures Count(UsesOf(uses[name := UsesOf(uses, name) + [index]], other), k) ==
      Count(UsesOf(uses, other), k) + (if k == index && name == other then 1 else 0)
  {
    if name == other {
      CountSnoc(UsesOf(uses, name), index, k);
    }
  }

  lemma UseAdded(before: map<string, seq<nat>>, uses: map<string, seq<nat>>, index: nat, operands: seq<Operand>, name: string)
    requires UsesAdded(before, uses, index, operands)
    ensures UsesAdded(before, uses[name := UsesOf(uses, name) + [index]], index, operands + [Local(name)])
  {
    forall other, k: nat
      ensures Count(UsesOf(uses[name := UsesOf(uses, name) + [index]], other), k) ==
        Count(UsesOf(before, other), k) + (if k == index then Count(operands + [Local(name)], Local(other)) else 0)
    {
      CountSnoc(operands, Local(name), Local(other));
      UseAddedAt(uses, index, name, other, k);
    }
  }

  lemma OtherAdded(before: map<string, seq<nat>>, uses: map<string, seq<nat>>, index: nat, operands: seq<Operand>, operand: Operand)
    requires UsesAdded(before, uses, index, operands) && !operand.Local?
    ensures UsesAdded(before, uses, index, operands + [operand])
  {
    forall name ensures Count(operands + [operand], Local(name)) == Count(operands, Local(name)) {
      CountSnoc(operands, operand, Local(name));
    }
  }

  /** Lists one instruction under every register it names, once for each operand position. */
  method AddUses(before: map<string, seq<nat>>, index: nat, operands: seq<Operand>) returns (uses: map<string, seq<nat>>)
    ensures UsesAdded(before, uses, index, operands)
  {
    uses := before;
    NothingAdded(before, index);
    assert operands[..0] == [];
    for j := 0 to |operands|
      invariant UsesAdded(before, uses, index, operands[..j])
    {
      assert operands[..j + 1] == operands[..j] + [operands[j]];
      if operands[j].Local? {
        UseAdded(before, uses, index, operands[..j], operands[j].name);
        uses := uses[operands[j].name := UsesOf(uses, operands[j].name) + [index]];
      } else {
        OtherAdded(before, uses, index, operands[..j], operands[j]);
      }
    }
    assert operands[..|operands|] == operands;
  }

  /** The index lists every instruction once for each operand position that names the register. */
  method BuildUseIndex(insts: seq<Inst>) returns (uses: map<string, seq<nat>>)
    ensures IsUseIndex(insts, |insts|, uses)
  {
    uses := map[];
    for index := 0 to |insts|
      invariant IsUseIndex(insts, index, uses)
    {
      var added := AddUses(uses, index, OperandsOf(insts[index]));
      forall name, k: nat
        ensures Count(UsesOf(added, name), k) == UseCount(insts, index + 1, name, k)
      {
        assert Count(UsesOf(uses, name), k) == UseCount(insts, index, name, k);
      }
      uses := added;
    }
  }

  lemma UsesAreMentions(insts: seq<Inst>, uses: map<string, seq<nat>>, name: string, k: nat)
    requires IsUseIndex(insts, |insts|, uses)
    ensures k in UsesOf(uses, name) <==> k < |insts| && Mentions(insts[k], name)
  {
    assert Count(UsesOf(uses, name), k) == UseCount(insts, |insts|, name, k);
    assert k in UsesOf(uses, name) <==> k in multiset(UsesOf(uses, name));
    if k < |insts| {
      assert Local(name) in OperandsOf(insts[k]) <==> Local(name) in multiset(OperandsOf(insts[k]));
    }
  }

  // ---- Spill cells ----

  predicate IsNonEscapingIntrinsic(symbol: string) {
    "llvm.dbg." <= symbol || "llvm.lifetime." <= symbol || "llvm.invariant." <= symbol
  }

  predicate IsIntrinsicCall(inst: Inst) {
    inst.kind.Call? && inst.kind.callee.Global? && IsNonEscapingIntrinsic(inst.kind.callee.symbol)
  }

  predicate LoadsFrom(inst: Inst, name: string) {
    inst.kind.Load? && inst.kind.src == Local(name)
  }

  predicate StoresTo(inst: Inst, name: string) {
    inst.kind.Store? && inst.kind.dest == Local(name)
  }

  predicate Allocates(inst: Inst, name: string) {
    inst.kind.Alloca? && inst.result == Some(name)
  }

  /** Instruction k is the only thing that ever writes the cell, and the address goes nowhere. */
  ghost predicate SpillStore(insts: seq<Inst>, name: string, k: nat) {
    && k < |insts| && StoresTo(insts[k], name) && insts[k].kind.value != Local(name)
    && forall j :: 0 <= j < |insts| && Mentions(insts[j], name) ==>
         j == k || LoadsFrom(insts[j], name) || IsIntrinsicCall(insts[j])
  }

  ghost predicate Allocated(insts: seq<Inst>, n: nat, name: string)
    requires n <= |insts|
  {
    exists j :: 0 <= j < n && Allocates(insts[j], name)
  }

  ghost predicate IsSpill(insts: seq<Inst>, name: string) {
    Allocated(insts, |insts|, name) && exists k: nat :: SpillStore(insts, name, k)
  }

  function ResultNames(insts: seq<Inst>): (names: set<string>)
    ensures forall n :: n in names <==> exists k :: 0 <= k < |insts| && insts[k].result == Some(n)
    ensures |names| <= |insts|
  {
    if insts == [] then {}
    else
      var last := |insts| - 1;
      assert forall k :: 0 <= k < last ==> insts[..last][k] == insts[k];
      ResultNames(insts[..last]) + if insts[last].result.Some? then {insts[last].result.value} else {}
  }

  ghost function SpillValue(insts: seq<Inst>, name: string): Operand
    requires IsSpill(insts, name)
  {
    var k: nat :| SpillStore(insts, name, k);
    insts[k].kind.value
  }

  /** The recognised spill cells with the value stored into each. */
  ghost function SpillMap(insts: seq<Inst>): map<string, Operand> {
    map name | name in ResultNames(insts) && IsSpill(insts, name) :: SpillValue(insts, name)
  }

  lemma SpillValueUnique(insts: seq<Inst>, name: string, k: nat)
    requires SpillStore(insts, name, k) && IsSpill(insts, name)
    ensures SpillValue(insts, name) == insts[k].kind.value
  {
    var other: nat :| SpillStore(insts, name, other) && SpillValue(insts, name) == insts[other].kind.value;
    assert Mentions(insts[other], name);
  }

  /** The value of one register across every store to a spill cell, and the only uses of its address. */
  lemma SpillFacts(insts: seq<Inst>, name: string, j: nat)
    requires name in SpillMap(insts) && j < |insts| && Mentions(insts[j], name)
    ensures LoadsFrom(insts[j], name) || IsIntrinsicCall(insts[j])
      || (insts[j].kind == Store(SpillMap(insts)[name], Local(name)) && SpillMap(insts)[name] != Local(name))
  {
    var k: nat :| SpillStore(insts, name, k);
    SpillValueUnique(insts, name, k);
  }

  /** A store to a spill cell stores the value the cell is known for. */
  lemma StoresSpillValue(insts: seq<Inst>, name: string, j: nat)
    requires name in SpillMap(insts) && j < |insts| && StoresTo(insts[j], name)
    ensures insts[j].kind.value == SpillMap(insts)[name]
  {
    assert Mentions(insts[j], name);
    SpillFacts(insts, name, j);
  }

  ghost predicate AcceptableUse(inst: Inst, name: string) {
    StoresTo(inst, name) || LoadsFrom(inst, name) || IsIntrinsicCall(inst)
  }

  /** What the scan over a prefix of the use list has established. */
  ghost predicate ScanState(insts: seq<Inst>, name: string, prefix: seq<nat>, stored: Option<nat>) {
    && (forall u :: 0 <= u < |prefix| ==> prefix[u] < |insts| && AcceptableUse(insts[prefix[u]], name))
    && match stored
       case None => forall u :: 0 <= u < |prefix| ==> prefix[u] < |insts| && !StoresTo(insts[prefix[u]], name)
       case Some(at) =>
         && at < |prefix|
         && (forall u :: 0 <= u < |prefix| ==> prefix[u] < |insts| && (StoresTo(insts[prefix[u]], name) <==> u == at))
  }

  lemma {:induction false} TwicePositions<T>(s: seq<T>, x: T)
    requires Count(s, x) >= 2
    ensures exists i, j :: 0 <= i < j < |s| && s[i] == x && s[j] == x
  {
    var last := |s| - 1;
    assert s == s[..last] + [s[last]];
    if s[last] == x {
      assert multiset(s) == multiset(s[..last]) + multiset([x]);
      assert x in multiset(s[..last]);
      assert x in s[..last];
      var i :| 0 <= i < last && s[..last][i] == x;
      assert s[i] == x;
    } else {
      assert multiset(s) == multiset(s[..last]) + multiset([s[last]]);
      TwicePositions(s[..last], x);
      var i, j :| 0 <= i < j < |s[..last]| && s[..last][i] == x && s[..last][j] == x;
      assert s[i] == x && s[j] == x;
    }
  }

  lemma {:induction false} PositionsCount<T>(s: seq<T>, i: nat, j: nat)
    requires i < j < |s| && s[i] == s[j]
    ensures Count(s, s[i]) >= 2
  {
    assert s == s[..j] + [s[j]] + s[j + 1..];
    assert multiset(s) == multiset(s[..j]) + multiset([s[j]]) + multiset(s[j + 1..]);
    assert s[..j][i] in multiset(s[..j]);
  }

  lemma AcceptedIsSpill(insts: seq<Inst>, uses: map<string, seq<nat>>, name: string, at: nat)
    requires IsUseIndex(insts, |insts|, uses)
    requires ScanState(insts, name, UsesOf(uses, name), Some(at))
    ensures SpillStore(insts, name, UsesOf(uses, name)[at])
  {
    var list := UsesOf(uses, name);
    var k := list[at];
    if insts[k].kind.value == Local(name) {
      assert OperandsOf(insts[k]) == [Local(name), Local(name)];
      assert Count(list, k) == UseCount(insts, |insts|, name, k);
      TwicePositions(list, k);
      assert false;
    }
    forall j | 0 <= j < |insts| && Mentions(insts[j], name)
      ensures j == k || LoadsFrom(insts[j], name) || IsIntrinsicCall(insts[j])
    {
      UsesAreMentions(insts, uses, name, j);
      var u :| 0 <= u < |list| && list[u] == j;
    }
  }

  lemma RejectedIsNoSpill(insts: seq<Inst>, uses: map<string, seq<nat>>, name: string, u: nat, at: Option<nat>)
    requires IsUseIndex(insts, |insts|, uses) && u < |UsesOf(uses, name)|
    requires ScanState(insts, name, UsesOf(uses, name)[..u], at)
    requires UsesOf(uses, name)[u] < |insts|
    requires !AcceptableUse(insts[UsesOf(uses, name)[u]], name)
      || (StoresTo(insts[UsesOf(uses, name)[u]], name) && at.Some?)
    ensures forall k: nat :: !SpillStore(insts, name, k)
  {
    var list := UsesOf(uses, name);
    UsesAreMentions(insts, uses, name, list[u]);
    if AcceptableUse(insts[list[u]], name) {
      assert list[..u][at.value] == list[at.value];
      UsesAreMentions(insts, uses, name, list[at.value]);
      if list[at.value] == list[u] {
        PositionsCount(list, at.value, u);
        assert Count(list, list[u]) == UseCount(insts, |insts|, name, list[u]);
        assert OperandsOf(insts[list[u]]) == [insts[list[u]].kind.value, Local(name)];
      }
    }
  }

  /** Decides one stack cell by scanning its uses. */
  method SpilledValue(insts: seq<Inst>, uses: map<string, seq<nat>>, name: string) returns (value: Option<Operand>)
    requires IsUseIndex(insts, |insts|, uses)
    ensures value.Some? <==> exists k: nat :: SpillStore(insts, name, k)
    ensures value.Some? ==> exists k: nat :: SpillStore(insts, name, k) && value.value == insts[k].kind.value
  {
    var ordinals := UsesOf(uses, name);
    var stored: Option<Operand> := None;
    ghost var at: Option<nat> := None;
    for u := 0 to |ordinals|
      invariant ScanState(insts, name, ordinals[..u], at)
      invariant stored.Some? <==> at.Some?
      invariant at.Some? ==> insts[ordinals[at.value]].kind.Store? && stored.value == insts[ordinals[at.value]].kind.value
    {
      UsesAreMentions(insts, uses, name, ordinals[u]);
      assert ordinals[u] in ordinals;
      assert ordinals[..u + 1] == ordinals[..u] + [ordinals[u]];
      var inst := insts[ordinals[u]];
      if StoresTo(inst, name) {
        if stored.Some? {
          RejectedIsNoSpill(insts, uses, name, u, at);
          return None;
        }
        stored, at := Some(inst.kind.value), Some(u);
      } else if !LoadsFrom(inst, name) && !IsIntrinsicCall(inst) {
        RejectedIsNoSpill(insts, uses, name, u, at);
        return None;
      }
    }
    assert ordinals[..|ordinals|] == ordinals;
    if stored.Some? {
      AcceptedIsSpill(insts, uses, name, at.value);
      assert SpillStore(insts, name, ordinals[at.value]);
    } else {
      forall k: nat ensures !SpillStore(insts, name, k) {
        if SpillStore(insts, name, k) {
          assert Mentions(insts[k], name);
          UsesAreMentions(insts, uses, name, k);
        }
      }
    }
    return stored;
  }

  lemma SpilledIsValue(insts: seq<Inst>, name: string, value: Operand)
    requires IsSpill(insts, name)
    requires exists k: nat :: SpillStore(insts, name, k) && value == insts[k].kind.value
    ensures value == SpillValue(insts, name)
  {
    var k: nat :| SpillStore(insts, name, k) && value == insts[k].kind.value;
    SpillValueUnique(insts, name, k);
  }

  ghost predicate SpillsUpTo(insts: seq<Inst>, n: nat, spills: map<string, Operand>)
    requires n <= |insts|
  {
    && (forall name :: name in spills <==> Allocated(insts, n, name) && IsSpill(insts, name))
    && (forall name :: name in spills ==> IsSpill(insts, name) && spills[name] == SpillValue(insts, name))
  }

  lemma AllocatedStep(insts: seq<Inst>, n: nat, name: string, other: string)
    requires n < |insts| && Allocates(insts[n], name)
    ensures Allocated(insts, n + 1, other) <==> other == name || Allocated(insts, n, other)
    ensures Allocated(insts, |insts|, name)
  {
  }

  lemma SpillsStep(insts: seq<Inst>, n: nat, spills: map<string, Operand>, name: string, value: Option<Operand>)
    requires n < |insts| && SpillsUpTo(insts, n, spills) && Allocates(insts[n], name)
    requires value.Some? <==> IsSpill(insts, name)
    requires value.Some? ==> value.value == SpillValue(insts, name)
    ensures SpillsUpTo(insts, n + 1, if value.Some? then spills[name := value.value] else spills)
  {
    forall other ensures Allocated(insts, n + 1, other) <==> other == name || Allocated(insts, n, other) {
      AllocatedStep(insts, n, name, other);
    }
  }

  lemma SpillsSkip(insts: seq<Inst>, n: nat, spills: map<string, Operand>)
    requires n < |insts| && SpillsUpTo(insts, n, spills)
    requires !(insts[n].kind.Alloca? && insts[n].result.Some?)
    ensures SpillsUpTo(insts, n + 1, spills)
  {
    forall other ensures Allocated(insts, n + 1, other) <==> Allocated(insts, n, other) { }
  }

  lemma SpillsDone(insts: seq<Inst>, spills: map<string, Operand>)
    requires SpillsUpTo(insts, |insts|, spills)
    ensures spills == SpillMap(insts)
  {
    forall name ensures name in spills <==> name in SpillMap(insts) { }
  }

  /** Exactly the stack cells with one store whose address is otherwise only loaded from. */
  method FindSpillAllocas(insts: seq<Inst>, uses: map<string, seq<nat>>) returns (spills: map<string, Operand>)
    requires IsUseIndex(insts, |insts|, uses)
    ensures spills == SpillMap(insts)
  {
    spills := map[];
    for index := 0 to |insts|
      invariant SpillsUpTo(insts, index, spills)
    {
      if insts[index].kind.Alloca? && insts[index].result.Some? {
        var name := insts[index].result.value;
        var value := SpilledValue(insts, uses, name);
        AllocatedStep(insts, index, name, name);
        if value.Some? { SpilledIsValue(insts, name, value.value); }
        SpillsStep(insts, index, spills, name, value);
        if value.Some? {
          spills := spills[name := value.value];
        }
      } else {
        SpillsSkip(insts, index, spills);
      }
    }
    SpillsDone(insts, spills);
  }
}
