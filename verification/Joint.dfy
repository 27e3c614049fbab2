/** Assembling the Rust half of a hand-off from single facts, and joining it with the foreign half. */
module Joint {
  import opened Support
  import opened ForeignIr
  import opened ForeignFacts
  import opened Compatibility

  // ---- Joining ----

  datatype JoinRejection =
    | BuildProfileMismatch
    | ForeignSymbolMismatch
    | CallbackRoleMismatch
    | UserDataRoleMismatch
    | RegistrationKeyMismatch
    | GenerationNotResolved
    | MissingSlotEvidence

  datatype JoinOutcome =
    | Joined(handOff: HandOffId, slots: set<SlotId>, verdicts: seq<CompatibilityVerdict>)
    | Rejected(rust: RustHandOffKey, foreign: ForeignHandOffKey, reasons: seq<JoinRejection>)

  /** The layer the rejection is about really fails. */
  predicate LayerFails(rust: RustHandOffKey, foreign: ForeignBehaviorFact, slots: set<SlotId>, reason: JoinRejection) {
    match reason
    case BuildProfileMismatch => rust.buildProfile != foreign.handOff.buildProfile
    case ForeignSymbolMismatch => rust.foreignSymbol != foreign.handOff.foreignSymbol
    case CallbackRoleMismatch => rust.callbackArgIndex != foreign.handOff.callbackArgIndex
    case UserDataRoleMismatch => rust.userdataArgIndex != foreign.handOff.userdataArgIndex
    case RegistrationKeyMismatch => rust.registrationKey != foreign.handOff.registrationKey
    case GenerationNotResolved => rust.registrationGeneration == GenerationUnresolved
    case MissingSlotEvidence => slots == {} && foreign.retention != NoRetain
  }

  /** The build first, then the fields in the order of the keys, the generation and the slots. */
  function LayerRank(reason: JoinRejection): nat {
    match reason
    case BuildProfileMismatch => 0
    case ForeignSymbolMismatch => 1
    case CallbackRoleMismatch => 2
    case UserDataRoleMismatch => 3
    case RegistrationKeyMismatch => 4
    case GenerationNotResolved => 5
    case MissingSlotEvidence => 6
  }

  ghost predicate InLayerOrder(reasons: seq<JoinRejection>) {
    forall i, j :: 0 <= i < j < |reasons| ==> LayerRank(reasons[i]) < LayerRank(reasons[j])
  }

  method Note(reasons: seq<JoinRejection>, fails: bool, reason: JoinRejection) returns (noted: seq<JoinRejection>)
    requires InLayerOrder(reasons) && forall r <- reasons :: LayerRank(r) < LayerRank(reason)
    ensures InLayerOrder(noted)
    ensures forall r :: r in noted <==> r in reasons || (fails && r == reason)
  {
    noted := if fails then reasons + [reason] else reasons;
  }

  predicate IsField(reason: JoinRejection) {
    !reason.GenerationNotResolved? && !reason.MissingSlotEvidence?
  }

  /** Lists the overlapping fields that differ. */
  method FailingFields(rust: RustHandOffKey, foreign: ForeignBehaviorFact) returns (reasons: seq<JoinRejection>)
    ensures InLayerOrder(reasons)
    ensures forall reason :: reason in reasons <==> IsField(reason) && LayerFails(rust, foreign, {}, reason)
  {
    reasons := Note([], rust.buildProfile != foreign.handOff.buildProfile, BuildProfileMismatch);
    reasons := Note(reasons, rust.foreignSymbol != foreign.handOff.foreignSymbol, ForeignSymbolMismatch);
    reasons := Note(reasons, rust.callbackArgIndex != foreign.handOff.callbackArgIndex, CallbackRoleMismatch);
    reasons := Note(reasons, rust.userdataArgIndex != foreign.handOff.userdataArgIndex, UserDataRoleMismatch);
    reasons := Note(reasons, rust.registrationKey != foreign.handOff.registrationKey, RegistrationKeyMismatch);
  }

  /** Lists every layer at which the two halves do not fit. */
  method FailingLayers(rust: RustHandOffKey, foreign: ForeignBehaviorFact, slots: set<SlotId>)
    returns (reasons: seq<JoinRejection>)
    ensures InLayerOrder(reasons)
    ensures forall reason :: reason in reasons <==> LayerFails(rust, foreign, slots, reason)
  {
    reasons := FailingFields(rust, foreign);
    reasons := Note(reasons, rust.registrationGeneration == GenerationUnresolved, GenerationNotResolved);
    reasons := Note(reasons, slots == {} && foreign.retention != NoRetain, MissingSlotEvidence);
  }

  /** Joins only when every layer agrees, and otherwise names every layer that does not, once. */
  method JoinHandOff(rust: RustContractFact, foreign: ForeignBehaviorFact, slots: set<SlotId>) returns (outcome: JoinOutcome)
    ensures outcome.Joined? <==> forall reason :: !LayerFails(rust.handOff, foreign, slots, reason)
    ensures outcome.Rejected? ==>
      && (forall reason :: reason in outcome.reasons <==> LayerFails(rust.handOff, foreign, slots, reason))
      && InLayerOrder(outcome.reasons)
      && outcome.rust == rust.handOff && outcome.foreign == foreign.handOff
    ensures outcome.Joined? ==>
      && outcome.slots == slots
      && outcome.handOff == HandOffId(rust.handOff, foreign.handOff.foreignArtifact)
      && VerdictsFit(rust, Some(foreign), outcome.verdicts)
  {
    JudgeHandOffFits(rust, Some(foreign));
    var reasons := FailingLayers(rust.handOff, foreign, slots);
    if reasons != [] {
      assert reasons[0] in reasons;
      return Rejected(rust.handOff, foreign.handOff, reasons);
    }
    return Joined(FromKeys(rust.handOff, Some(foreign.handOff)), slots, JudgeHandOff(rust, Some(foreign)));
  }

  // ---- Assembling ----

  datatype SafeEntryLineage = DirectPublicSafeEntry | ReachableFromPublicSafeEntry | NoPublicSafeEntry | LineageUnresolved

  datatype Binding = Binding(siteId: string, symbol: Option<string>, callbackArgIndex: Option<nat>, userdataArgIndex: Option<nat>)

  /** The payload of a static fact, as far as assembling reads it. */
  datatype Payload =
    | LifetimeBound(admission: CaptureAdmission)
    | Guard(guard: RegistrationGuard)
    | Allocation(ownership: AllocationOwnership)
    | Lineage(lineage: SafeEntryLineage, entryDefPath: Option<string>)
    | SymbolBinding(binding: Binding)
    | Unrelated

  datatype Key = Key(apiId: string, callbackParam: string)

  datatype Fact = Fact(key: Key, siteId: string, payload: Payload)

  datatype Parts = Parts(
    admission: Option<CaptureAdmission>, guard: Option<RegistrationGuard>, allocation: Option<AllocationOwnership>,
    lineage: Option<SafeEntryLineage>, entryDefPath: Option<string>, binding: Option<Binding>, evidence: multiset<string>)

  const NO_PARTS := Parts(None, None, None, None, None, None, multiset{})

  datatype ContractGap =
    | MissingCaptureAdmission
    | MissingGuard
    | MissingAllocationOwnership
    | MissingSafeEntryLineage
    | NotReachableFromSafeEntry
    | SafeEntryLineageUnresolved
    | MissingForeignSymbol
    | ForeignSymbolUnresolved

  datatype Assembly = Assembled(fact: RustContractFact) | Gap(key: Key, gaps: seq<ContractGap>)

  function PartsAt(table: map<Key, Parts>, key: Key): Parts {
    if key in table then table[key] else NO_PARTS
  }

  function WithPayload(parts: Parts, payload: Payload): Parts {
    match payload
    case LifetimeBound(admission) => parts.(admission := Some(admission))
    case Guard(guard) => parts.(guard := Some(guard))
    case Allocation(ownership) => parts.(allocation := Some(ownership))
    case Lineage(lineage, path) => parts.(lineage := Some(lineage), entryDefPath := path)
    case SymbolBinding(binding) => parts.(binding := Some(binding))
    case Unrelated => parts
  }

  /** Files one fact under its key. */
  function AddFact(table: map<Key, Parts>, fact: Fact): map<Key, Parts> {
    if fact.payload.Unrelated? then table
    else table[fact.key := Filed(PartsAt(table, fact.key), fact)]
  }

  function Table(facts: seq<Fact>): map<Key, Parts> {
    if facts == [] then map[] else AddFact(Table(facts[..|facts| - 1]), facts[|facts| - 1])
  }

  /** Both facts say the same sort of thing about the same key. */
  predicate Clash(a: Fact, b: Fact) {
    a.key == b.key && SameSort(a.payload, b.payload)
  }

  /** At most one fact of each kind per key. */
  ghost predicate NoClash(facts: seq<Fact>) {
    forall i, j :: 0 <= i < j < |facts| ==> !Clash(facts[i], facts[j])
  }

  predicate SameSort(a: Payload, b: Payload) {
    || (a.LifetimeBound? && b.LifetimeBound?) || (a.Guard? && b.Guard?) || (a.Allocation? && b.Allocation?)
    || (a.Lineage? && b.Lineage?) || (a.SymbolBinding? && b.SymbolBinding?)
  }

  lemma PayloadsCommute(parts: Parts, a: Payload, b: Payload)
    requires !SameSort(a, b)
    ensures WithPayload(WithPayload(parts, a), b) == WithPayload(WithPayload(parts, b), a)
  {
  }

  function Filed(parts: Parts, fact: Fact): Parts {
    var next := WithPayload(parts, fact.payload);
    next.(evidence := next.evidence + multiset{fact.siteId})
  }

  lemma FilingCommutes(parts: Parts, a: Fact, b: Fact)
    requires !SameSort(a.payload, b.payload)
    ensures Filed(Filed(parts, a), b) == Filed(Filed(parts, b), a)
  {
    PayloadsCommute(parts, a.payload, b.payload);
    assert parts.evidence + multiset{a.siteId} + multiset{b.siteId} == parts.evidence + multiset{b.siteId} + multiset{a.siteId};
  }

  lemma AddCommutes(table: map<Key, Parts>, a: Fact, b: Fact)
    requires !Clash(a, b)
    ensures AddFact(AddFact(table, a), b) == AddFact(AddFact(table, b), a)
  {
    if !a.payload.Unrelated? && !b.payload.Unrelated? {
      if a.key == b.key {
        FilingCommutes(PartsAt(table, a.key), a, b);
        AddTwiceAtOneKey(table, a, b);
        AddTwiceAtOneKey(table, b, a);
      } else {
        AddAtTwoKeys(table, a, b);
        AddAtTwoKeys(table, b, a);
        UpdatesCommute(table, a.key, Filed(PartsAt(table, a.key), a), b.key, Filed(PartsAt(table, b.key), b));
      }
    }
  }

  lemma AddTwiceAtOneKey(table: map<Key, Parts>, a: Fact, b: Fact)
    requires !a.payload.Unrelated? && !b.payload.Unrelated? && a.key == b.key
    ensures AddFact(AddFact(table, a), b) == table[a.key := Filed(Filed(PartsAt(table, a.key), a), b)]
  {
  }

  lemma AddAtTwoKeys(table: map<Key, Parts>, a: Fact, b: Fact)
    requires !a.payload.Unrelated? && !b.payload.Unrelated? && a.key != b.key
    ensures AddFact(AddFact(table, a), b)
         == table[a.key := Filed(PartsAt(table, a.key), a)][b.key := Filed(PartsAt(table, b.key), b)]
  {
  }

  lemma UpdatesCommute<K, V>(m: map<K, V>, a: K, x: V, b: K, y: V)
    requires a != b
    ensures m[a := x][b := y] == m[b := y][a := x]
  {
  }

  /** A fact that clashes with nothing after it can be filed last. */
  lemma {:induction false} FileLast(front: seq<Fact>, fact: Fact, back: seq<Fact>)
    requires forall k :: 0 <= k < |back| ==> !Clash(fact, back[k])
    ensures Table(front + [fact] + back) == AddFact(Table(front + back), fact)
  {
    if back == [] {
      assert front + [fact] + back == front + [fact] && front + back == front;
    } else {
      var last := |back| - 1;
      assert (front + [fact] + back)[..|front| + 1 + last] == front + [fact] + back[..last];
      assert (front + back)[..|front| + last] == front + back[..last];
      FileLast(front, fact, back[..last]);
      AddCommutes(Table(front + back[..last]), fact, back[last]);
    }
  }

  /** Taking the last element of one list out of a permutation of it leaves a permutation of the rest. */
  lemma RemoveLast<T>(s: seq<T>, t: seq<T>) returns (i: nat)
    requires multiset(s) == multiset(t) && t != []
    ensures i < |s| && s[i] == t[|t| - 1]
    ensures multiset(s[..i] + s[i + 1..]) == multiset(t[..|t| - 1])
  {
    var last := |t| - 1;
    assert t == t[..last] + [t[last]];
    assert t[last] in multiset(s);
    i :| i < |s| && s[i] == t[last];
    WithoutOne(s, i);
    WithoutOne(t, last);
    assert t[..last] + t[last + 1..] == t[..last];
  }

  lemma WithoutOne<T>(s: seq<T>, i: nat)
    requires i < |s|
    ensures multiset(s[..i] + s[i + 1..]) == multiset(s) - multiset{s[i]}
  {
    assert s == s[..i] + ([s[i]] + s[i + 1..]);
    assert multiset(s) == multiset(s[..i] + s[i + 1..]) + multiset{s[i]};
  }

  /** Without clashes the table depends only on which facts there are, not on their order. */
  lemma {:induction false} TableIgnoresOrder(facts: seq<Fact>, other: seq<Fact>)
    requires multiset(facts) == multiset(other) && NoClash(facts)
    ensures Table(facts) == Table(other)
    decreases |other|
  {
    assert |facts| == |multiset(facts)| == |other|;
    if other != [] {
      var i := RemoveLast(facts, other);
      RemovalKeepsNoClash(facts, i);
      TableIgnoresOrder(facts[..i] + facts[i + 1..], other[..|other| - 1]);
      FileMiddleLast(facts, i);
    }
  }

  lemma FileMiddleLast(facts: seq<Fact>, i: nat)
    requires NoClash(facts) && i < |facts|
    ensures Table(facts) == AddFact(Table(facts[..i] + facts[i + 1..]), facts[i])
  {
    var back := facts[i + 1..];
    forall k | 0 <= k < |back| ensures !Clash(facts[i], back[k]) {
      assert back[k] == facts[i + 1 + k];
    }
    assert facts == facts[..i] + [facts[i]] + back;
    FileLast(facts[..i], facts[i], back);
  }

  lemma RemovalKeepsNoClash(facts: seq<Fact>, i: nat)
    requires NoClash(facts) && i < |facts|
    ensures NoClash(facts[..i] + facts[i + 1..])
  {
    var rest := facts[..i] + facts[i + 1..];
    forall a, b | 0 <= a < b < |rest| ensures !Clash(rest[a], rest[b]) {
      var a' := if a < i then a else a + 1;
      var b' := if b < i then b else b + 1;
      assert rest[a] == facts[a'] && rest[b] == facts[b'];
    }
  }

  // ---- What the table holds ----

  predicate HoldsPayload(parts: Parts, payload: Payload) {
    match payload
    case LifetimeBound(admission) => parts.admission == Some(admission)
    case Guard(guard) => parts.guard == Some(guard)
    case Allocation(ownership) => parts.allocation == Some(ownership)
    case Lineage(lineage, path) => parts.lineage == Some(lineage) && parts.entryDefPath == path
    case SymbolBinding(binding) => parts.binding == Some(binding)
    case Unrelated => false
  }

  /** Some fact says this about the key. */
  ghost predicate Says(facts: seq<Fact>, key: Key, payload: Payload) {
    exists i :: 0 <= i < |facts| && facts[i].key == key && facts[i].payload == payload
  }

  predicate TableHas(table: map<Key, Parts>, key: Key, payload: Payload) {
    key in table && HoldsPayload(table[key], payload)
  }

  lemma {:induction false} HeldWasSaid(facts: seq<Fact>, key: Key, payload: Payload)
    requires TableHas(Table(facts), key, payload)
    ensures Says(facts, key, payload)
  {
    var last := |facts| - 1;
    if !(facts[last].key == key && facts[last].payload == payload) {
      AddedElsewhere(Table(facts[..last]), facts[last], key, payload);
      HeldWasSaid(facts[..last], key, payload);
      var i :| 0 <= i < last && facts[..last][i].key == key && facts[..last][i].payload == payload;
      assert facts[i].key == key;
    }
  }

  lemma AddedElsewhere(table: map<Key, Parts>, fact: Fact, key: Key, payload: Payload)
    requires TableHas(AddFact(table, fact), key, payload) && !(fact.key == key && fact.payload == payload)
    ensures TableHas(table, key, payload)
  {
  }

  /** Without clashes a registration has exactly the parts that facts state about it. */
  lemma HeldIffSaid(facts: seq<Fact>, key: Key, payload: Payload)
    requires NoClash(facts) && !payload.Unrelated?
    ensures TableHas(Table(facts), key, payload) <==> Says(facts, key, payload)
  {
    if TableHas(Table(facts), key, payload) {
      HeldWasSaid(facts, key, payload);
    }
    if i :| 0 <= i < |facts| && facts[i].key == key && facts[i].payload == payload {
      FileMiddleLast(facts, i);
    }
  }

  // ---- From parts to outcomes ----

  function BoundSymbol(parts: Parts): Option<string> {
    if parts.binding.Some? then parts.binding.value.symbol else None
  }

  function SitesOf(table: map<Key, Parts>, symbol: string): set<Key> {
    set key | key in table && BoundSymbol(table[key]) == Some(symbol)
  }

  function GapsOf(parts: Parts): seq<ContractGap> {
    (if parts.admission.None? then [MissingCaptureAdmission] else [])
    + (if parts.guard.None? then [MissingGuard] else [])
    + (if parts.allocation.None? then [MissingAllocationOwnership] else [])
    + (match parts.lineage
       case None => [MissingSafeEntryLineage]
       case Some(NoPublicSafeEntry) => [NotReachableFromSafeEntry]
       case Some(LineageUnresolved) => [SafeEntryLineageUnresolved]
       case Some(_) => [])
    + (match parts.binding
       case None => [MissingForeignSymbol]
       case Some(binding) =>
         if binding.symbol.None? || binding.callbackArgIndex.None? then [ForeignSymbolUnresolved] else [])
  }

  /** What is known of one registration suffices for a contract fact. */
  predicate Complete(parts: Parts) {
    && parts.admission.Some? && parts.guard.Some? && parts.allocation.Some?
    && parts.lineage in {Some(DirectPublicSafeEntry), Some(ReachableFromPublicSafeEntry)}
    && parts.binding.Some? && parts.binding.value.symbol.Some? && parts.binding.value.callbackArgIndex.Some?
  }

  /** When a gap has to be listed. */
  predicate IsGap(parts: Parts, gap: ContractGap) {
    match gap
    case MissingCaptureAdmission => parts.admission.None?
    case MissingGuard => parts.guard.None?
    case MissingAllocationOwnership => parts.allocation.None?
    case MissingSafeEntryLineage => parts.lineage.None?
    case NotReachableFromSafeEntry => parts.lineage == Some(NoPublicSafeEntry)
    case SafeEntryLineageUnresolved => parts.lineage == Some(LineageUnresolved)
    case MissingForeignSymbol => parts.binding.None?
    case ForeignSymbolUnresolved =>
      parts.binding.Some? && (parts.binding.value.symbol.None? || parts.binding.value.callbackArgIndex.None?)
  }

  function GapRank(gap: ContractGap): nat {
    match gap
    case MissingCaptureAdmission => 0
    case MissingGuard => 1
    case MissingAllocationOwnership => 2
    case MissingSafeEntryLineage => 3
    case NotReachableFromSafeEntry => 3
    case SafeEntryLineageUnresolved => 3
    case MissingForeignSymbol => 4
    case ForeignSymbolUnresolved => 4
  }

  /** The gaps that apply, each once, in the order of the parts. */
  ghost predicate ListsGaps(parts: Parts, gaps: seq<ContractGap>) {
    && (forall gap :: gap in gaps <==> IsGap(parts, gap))
    && (forall i, j :: 0 <= i < j < |gaps| ==> GapRank(gaps[i]) < GapRank(gaps[j]))
  }

  lemma GapsListed(parts: Parts)
    ensures forall gap :: gap in GapsOf(parts) <==> IsGap(parts, gap)
  {
  }

  lemma GapsOrdered(parts: Parts)
    ensures forall i, j :: 0 <= i < j < |GapsOf(parts)| ==> GapRank(GapsOf(parts)[i]) < GapRank(GapsOf(parts)[j])
  {
  }

  lemma GapsExact(parts: Parts)
    ensures ListsGaps(parts, GapsOf(parts))
  {
    GapsListed(parts);
    GapsOrdered(parts);
  }

  lemma GapsIff(parts: Parts)
    ensures GapsOf(parts) == [] <==> Complete(parts)
  {
  }

  datatype BuildContext = BuildContext(rustArtifact: string, buildProfile: string)

  function Outcome(key: Key, parts: Parts, sites: map<string, nat>, build: BuildContext): Assembly {
    GapsIff(parts);
    if GapsOf(parts) != [] then Gap(key, GapsOf(parts))
    else
      var binding := parts.binding.value;
      var symbol := binding.symbol.value;
      var generation :=
        if symbol !in sites then GenerationUnresolved
        else if sites[symbol] == 1 then UniqueStaticSite else MultipleStaticSites;
      Assembled(RustContractFact(
        RustHandOffKey(build.rustArtifact, build.buildProfile,
                       if parts.entryDefPath.Some? then parts.entryDefPath.value else key.apiId,
                       key.apiId, binding.siteId, symbol, binding.callbackArgIndex.value, binding.userdataArgIndex,
                       None, generation),
        parts.admission.value, parts.guard.value, parts.allocation.value, parts.evidence))
  }

  /** How many of the given registrations bind each symbol. */
  ghost predicate CountsAmong(table: map<Key, Parts>, keys: set<Key>, sites: map<string, nat>) {
    forall symbol :: CountRight(SitesOf(table, symbol) * keys, sites, symbol)
  }

  ghost predicate CountRight(keys: set<Key>, sites: map<string, nat>, symbol: string) {
    (symbol in sites <==> keys != {}) && (symbol in sites ==> sites[symbol] == |keys|)
  }

  ghost predicate CountsSites(table: map<Key, Parts>, sites: map<string, nat>) {
    forall symbol :: CountRight(SitesOf(table, symbol), sites, symbol)
  }

  ghost function SiteCounts(table: map<Key, Parts>): map<string, nat> {
    map key | key in table && BoundSymbol(table[key]).Some? ::
      BoundSymbol(table[key]).value := |SitesOf(table, BoundSymbol(table[key]).value)|
  }

  lemma SiteCountsRight(table: map<Key, Parts>)
    ensures CountsSites(table, SiteCounts(table))
  {
    forall symbol ensures CountRight(SitesOf(table, symbol), SiteCounts(table), symbol) {
      if symbol in SiteCounts(table) {
        var key :| key in table && BoundSymbol(table[key]) == Some(symbol);
        assert key in SitesOf(table, symbol);
      }
      if key :| key in SitesOf(table, symbol) {
        assert BoundSymbol(table[key]).value in SiteCounts(table);
      }
    }
  }

  function Counted(sites: map<string, nat>, bound: Option<string>): map<string, nat> {
    if bound.None? then sites else sites[bound.value := (if bound.value in sites then sites[bound.value] else 0) + 1]
  }

  lemma CountOne(table: map<Key, Parts>, keys: set<Key>, sites: map<string, nat>, key: Key)
    requires CountsAmong(table, keys, sites) && key in table && key !in keys
    ensures CountsAmong(table, keys + {key}, Counted(sites, BoundSymbol(table[key])))
  {
    var bound := BoundSymbol(table[key]);
    forall symbol ensures CountRight(SitesOf(table, symbol) * (keys + {key}), Counted(sites, bound), symbol) {
      assert CountRight(SitesOf(table, symbol) * keys, sites, symbol);
      if bound == Some(symbol) {
        assert SitesOf(table, symbol) * (keys + {key}) == SitesOf(table, symbol) * keys + {key};
      } else {
        assert SitesOf(table, symbol) * (keys + {key}) == SitesOf(table, symbol) * keys;
      }
    }
  }

  method CountSites(table: map<Key, Parts>) returns (sites: map<string, nat>)
    ensures CountsSites(table, sites)
  {
    sites := map[];
    var remaining := table.Keys;
    ghost var done: set<Key> := {};
    while remaining != {}
      invariant done + remaining == table.Keys && done !! remaining
      invariant CountsAmong(table, done, sites)
      decreases remaining
    {
      var key :| key in remaining;
      CountOne(table, done, sites, key);
      sites := Counted(sites, BoundSymbol(table[key]));
      remaining := remaining - {key};
      done := done + {key};
    }
    forall symbol ensures CountRight(SitesOf(table, symbol), sites, symbol) {
      assert SitesOf(table, symbol) * done == SitesOf(table, symbol);
      assert CountRight(SitesOf(table, symbol) * done, sites, symbol);
    }
  }

  /** The outcome for every registration some fact mentions. */
  ghost predicate AssemblesAll(table: map<Key, Parts>, build: BuildContext, outcomes: map<Key, Assembly>) {
    && outcomes.Keys == table.Keys
    && forall sites :: CountsSites(table, sites) ==>
         forall key :: key in table ==> outcomes[key] == Outcome(key, table[key], sites, build)
  }

  method AssembleRustContractFacts(facts: seq<Fact>, build: BuildContext) returns (outcomes: map<Key, Assembly>)
    ensures AssemblesAll(Table(facts), build, outcomes)
  {
    var table: map<Key, Parts> := map[];
    for k := 0 to |facts|
      invariant table == Table(facts[..k])
    {
      assert facts[..k + 1][..k] == facts[..k];
      table := AddFact(table, facts[k]);
    }
    assert facts[..|facts|] == facts;
    var sites := CountSites(table);
    outcomes := map key | key in table :: Outcome(key, table[key], sites, build);
    forall other | CountsSites(table, other) ensures other == sites {
      forall symbol
        ensures symbol in other <==> symbol in sites
        ensures symbol in other ==> other[symbol] == sites[symbol]
      {
        assert CountRight(SitesOf(table, symbol), other, symbol) && CountRight(SitesOf(table, symbol), sites, symbol);
      }
    }
  }

  /** Permuting the facts changes no outcome, as long as no two clash. */
  lemma AssemblyIgnoresOrder(facts: seq<Fact>, other: seq<Fact>, build: BuildContext,
                             outcomes: map<Key, Assembly>, otherOutcomes: map<Key, Assembly>)
    requires multiset(facts) == multiset(other) && NoClash(facts)
    requires AssemblesAll(Table(facts), build, outcomes) && AssemblesAll(Table(other), build, otherOutcomes)
    ensures outcomes == otherOutcomes
  {
    TableIgnoresOrder(facts, other);
    SiteCountsRight(Table(facts));
  }

  /** Everything in an assembled fact is what the last fact of its sort stated about that registration. */
  lemma AssembledIsStated(facts: seq<Fact>, build: BuildContext, outcomes: map<Key, Assembly>, key: Key)
    requires AssemblesAll(Table(facts), build, outcomes) && key in outcomes && outcomes[key].Assembled?
    ensures
      var rust := outcomes[key].fact;
      && SaidLast(facts, key, LifetimeBound(rust.captureAdmission)) && SaidLast(facts, key, Guard(rust.guard))
      && SaidLast(facts, key, Allocation(rust.allocation))
      && exists binding ::
           && SaidLast(facts, key, SymbolBinding(binding))
           && binding.symbol == Some(rust.handOff.foreignSymbol)
           && binding.callbackArgIndex == Some(rust.handOff.callbackArgIndex)
           && binding.userdataArgIndex == rust.handOff.userdataArgIndex
           && binding.siteId == rust.handOff.callOccurrence
    ensures
      var handOff := outcomes[key].fact.handOff;
      && handOff.buildProfile == build.buildProfile && handOff.rustArtifact == build.rustArtifact
      && handOff.rustDefInstance == key.apiId && handOff.registrationKey == None
      && exists lineage, path ::
           && SaidLast(facts, key, Lineage(lineage, path)) && lineage in {DirectPublicSafeEntry, ReachableFromPublicSafeEntry}
           && handOff.safeEntryInstance == if path.Some? then path.value else key.apiId
  {
    SiteCountsRight(Table(facts));
    var parts := Table(facts)[key];
    GapsIff(parts);
    CompleteIsSaid(facts, key);
  }

  lemma CompleteIsSaid(facts: seq<Fact>, key: Key)
    requires key in Table(facts) && Complete(Table(facts)[key])
    ensures
      var parts := Table(facts)[key];
      && SaidLast(facts, key, LifetimeBound(parts.admission.value)) && SaidLast(facts, key, Guard(parts.guard.value))
      && SaidLast(facts, key, Allocation(parts.allocation.value))
      && SaidLast(facts, key, SymbolBinding(parts.binding.value))
      && SaidLast(facts, key, Lineage(parts.lineage.value, parts.entryDefPath))
  {
    var parts := Table(facts)[key];
    HeldIffSaidLast(facts, key, LifetimeBound(parts.admission.value));
    HeldIffSaidLast(facts, key, Guard(parts.guard.value));
    HeldIffSaidLast(facts, key, Allocation(parts.allocation.value));
    HeldIffSaidLast(facts, key, SymbolBinding(parts.binding.value));
    HeldIffSaidLast(facts, key, Lineage(parts.lineage.value, parts.entryDefPath));
  }

  /** Assembled hand-offs always know their generation; it is unique exactly when one key binds the symbol. */
  lemma AssembledGeneration(table: map<Key, Parts>, sites: map<string, nat>, build: BuildContext, key: Key)
    requires CountsSites(table, sites) && key in table && Outcome(key, table[key], sites, build).Assembled?
    ensures Complete(table[key])
    ensures
      var handOff := Outcome(key, table[key], sites, build).fact.handOff;
      && handOff.registrationGeneration != GenerationUnresolved
      && (handOff.registrationGeneration == UniqueStaticSite <==> SitesOf(table, handOff.foreignSymbol) == {key})
  {
    GapsIff(table[key]);
    var symbol := table[key].binding.value.symbol.value;
    assert key in SitesOf(table, symbol);
    assert CountRight(SitesOf(table, symbol), sites, symbol);
    SubsetCardinality({key}, SitesOf(table, symbol));
  }

  /** For an assembled hand-off a join can only fail on an overlapping field or on missing slot evidence. */
  lemma AssembledJoins(table: map<Key, Parts>, sites: map<string, nat>, build: BuildContext, key: Key,
                       foreign: ForeignBehaviorFact, slots: set<SlotId>)
    requires CountsSites(table, sites) && key in table && Outcome(key, table[key], sites, build).Assembled?
    ensures
      var handOff := Outcome(key, table[key], sites, build).fact.handOff;
      (forall reason :: !LayerFails(handOff, foreign, slots, reason)) <==>
        JoinsWith(handOff, foreign.handOff) && (slots != {} || foreign.retention == NoRetain)
  {
    AssembledGeneration(table, sites, build, key);
    var handOff := Outcome(key, table[key], sites, build).fact.handOff;
    if JoinsWith(handOff, foreign.handOff) && (slots != {} || foreign.retention == NoRetain) {
      forall reason ensures !LayerFails(handOff, foreign, slots, reason) { }
    } else {
      assert LayerFails(handOff, foreign, slots, BuildProfileMismatch)
        || LayerFails(handOff, foreign, slots, ForeignSymbolMismatch)
        || LayerFails(handOff, foreign, slots, CallbackRoleMismatch)
        || LayerFails(handOff, foreign, slots, UserDataRoleMismatch)
        || LayerFails(handOff, foreign, slots, RegistrationKeyMismatch)
        || LayerFails(handOff, foreign, slots, MissingSlotEvidence);
    }
  }

  // ---- Outcomes from the facts themselves ----

  /** The last fact of its sort about the key says this. */
  ghost predicate SaidLast(facts: seq<Fact>, key: Key, payload: Payload) {
    exists i :: 0 <= i < |facts| && SaidLastAt(facts, key, payload, i)
  }

  ghost predicate SaidLastAt(facts: seq<Fact>, key: Key, payload: Payload, i: nat)
    requires i < |facts|
  {
    && facts[i].key == key && facts[i].payload == payload
    && forall j :: i < j < |facts| && facts[j].key == key ==> !SameSort(facts[j].payload, payload)
  }

  lemma SaidLastSnoc(facts: seq<Fact>, key: Key, payload: Payload)
    requires facts != [] && !payload.Unrelated?
    ensures
      var front, last := facts[..|facts| - 1], facts[|facts| - 1];
      SaidLast(facts, key, payload) <==>
        if last.key == key && SameSort(last.payload, payload) then last.payload == payload else SaidLast(front, key, payload)
  {
    var n := |facts| - 1;
    var front, last := facts[..n], facts[n];
    if SaidLast(facts, key, payload) {
      var i :| 0 <= i < |facts| && SaidLastAt(facts, key, payload, i);
      if i < n { assert SaidLastAt(front, key, payload, i); }
    }
    if last.key == key && last.payload == payload { assert SaidLastAt(facts, key, payload, n); }
    if !(last.key == key && SameSort(last.payload, payload)) && SaidLast(front, key, payload) {
      var i :| 0 <= i < n && SaidLastAt(front, key, payload, i);
      assert SaidLastAt(facts, key, payload, i);
    }
  }

  lemma FiledHolds(parts: Parts, fact: Fact, payload: Payload)
    requires !payload.Unrelated? && !fact.payload.Unrelated?
    ensures HoldsPayload(Filed(parts, fact), payload) <==>
      if SameSort(fact.payload, payload) then fact.payload == payload else HoldsPayload(parts, payload)
  {
  }

  /** Whatever the facts, clashing ones included, a registration has exactly what the last fact of each sort states. */
  lemma {:induction false} HeldIffSaidLast(facts: seq<Fact>, key: Key, payload: Payload)
    requires !payload.Unrelated?
    ensures TableHas(Table(facts), key, payload) <==> SaidLast(facts, key, payload)
  {
    if facts != [] {
      var front, last := facts[..|facts| - 1], facts[|facts| - 1];
      HeldIffSaidLast(front, key, payload);
      SaidLastSnoc(facts, key, payload);
      if last.key == key && !last.payload.Unrelated? {
        FiledHolds(PartsAt(Table(front), key), last, payload);
      }
    }
  }

  /** A fact that assembling reads mentions the registration. */
  ghost predicate Mentioned(facts: seq<Fact>, key: Key) {
    exists i :: 0 <= i < |facts| && facts[i].key == key && !facts[i].payload.Unrelated?
  }

  lemma {:induction false} KeysAreMentioned(facts: seq<Fact>, key: Key)
    ensures key in Table(facts) <==> Mentioned(facts, key)
  {
    if facts != [] {
      var n := |facts| - 1;
      KeysAreMentioned(facts[..n], key);
      if i :| 0 <= i < |facts| && facts[i].key == key && !facts[i].payload.Unrelated? {
        if i < n { assert facts[..n][i].key == key; }
      }
      if Mentioned(facts[..n], key) {
        var i :| 0 <= i < n && facts[..n][i].key == key && !facts[..n][i].payload.Unrelated?;
        assert facts[i].key == key;
      }
    }
  }

  /** The positions of the facts about the registration that come from the site. */
  ghost function FromSite(facts: seq<Fact>, key: Key, site: string): set<nat> {
    set i: nat | i < |facts| && facts[i].key == key && facts[i].siteId == site && !facts[i].payload.Unrelated?
  }

  /** The evidence of a registration is every site that stated something about it, as often as it did. */
  lemma {:induction false} EvidenceCounts(facts: seq<Fact>, key: Key, site: string)
    ensures PartsAt(Table(facts), key).evidence[site] == |FromSite(facts, key, site)|
  {
    if facts != [] {
      var n := |facts| - 1;
      EvidenceCounts(facts[..n], key, site);
      var before := FromSite(facts[..n], key, site);
      if facts[n].key == key && facts[n].siteId == site && !facts[n].payload.Unrelated? {
        assert FromSite(facts, key, site) == before + {n};
      } else {
        assert FromSite(facts, key, site) == before;
      }
    }
  }

  /** When a gap has to be reported, in terms of the facts. */
  ghost predicate GapSaid(facts: seq<Fact>, key: Key, gap: ContractGap) {
    match gap
    case MissingCaptureAdmission => forall admission :: !Says(facts, key, LifetimeBound(admission))
    case MissingGuard => forall guard :: !Says(facts, key, Guard(guard))
    case MissingAllocationOwnership => forall ownership :: !Says(facts, key, Allocation(ownership))
    case MissingSafeEntryLineage => forall lineage, path :: !Says(facts, key, Lineage(lineage, path))
    case NotReachableFromSafeEntry => exists path :: SaidLast(facts, key, Lineage(NoPublicSafeEntry, path))
    case SafeEntryLineageUnresolved => exists path :: SaidLast(facts, key, Lineage(LineageUnresolved, path))
    case MissingForeignSymbol => forall binding :: !Says(facts, key, SymbolBinding(binding))
    case ForeignSymbolUnresolved =>
      exists binding :: SaidLast(facts, key, SymbolBinding(binding))
        && (binding.symbol.None? || binding.callbackArgIndex.None?)
  }

  /** If something of a sort is said about a key, something of that sort is said last. */
  lemma {:induction false} LastIsSaid(facts: seq<Fact>, key: Key, payload: Payload) returns (last: Payload)
    requires Says(facts, key, payload) && !payload.Unrelated?
    ensures SaidLast(facts, key, last) && SameSort(last, payload)
  {
    var n := |facts| - 1;
    if facts[n].key == key && SameSort(facts[n].payload, payload) {
      last := facts[n].payload;
      assert SaidLastAt(facts, key, last, n);
    } else {
      var i :| 0 <= i < |facts| && facts[i].key == key && facts[i].payload == payload;
      assert i < n && facts[..n][i] == facts[i];
      last := LastIsSaid(facts[..n], key, payload);
      SaidLastSnoc(facts, key, last);
    }
  }

  lemma SortIsHeld(facts: seq<Fact>, key: Key, payload: Payload) returns (held: Payload)
    requires Says(facts, key, payload) && !payload.Unrelated?
    ensures TableHas(Table(facts), key, held) && SameSort(held, payload)
  {
    held := LastIsSaid(facts, key, payload);
    HeldIffSaidLast(facts, key, held);
  }

  lemma MissingMeansUnsaid(facts: seq<Fact>, key: Key)
    requires key in Table(facts)
    ensures
      var parts := Table(facts)[key];
      && (parts.admission.None? <==> GapSaid(facts, key, MissingCaptureAdmission))
      && (parts.guard.None? <==> GapSaid(facts, key, MissingGuard))
      && (parts.allocation.None? <==> GapSaid(facts, key, MissingAllocationOwnership))
  {
    var parts := Table(facts)[key];
    if parts.admission.Some? { HeldWasSaid(facts, key, LifetimeBound(parts.admission.value)); }
    if parts.guard.Some? { HeldWasSaid(facts, key, Guard(parts.guard.value)); }
    if parts.allocation.Some? { HeldWasSaid(facts, key, Allocation(parts.allocation.value)); }
    if admission :| Says(facts, key, LifetimeBound(admission)) { var held := SortIsHeld(facts, key, LifetimeBound(admission)); }
    if guard :| Says(facts, key, Guard(guard)) { var held := SortIsHeld(facts, key, Guard(guard)); }
    if ownership :| Says(facts, key, Allocation(ownership)) { var held := SortIsHeld(facts, key, Allocation(ownership)); }
  }

  lemma LineageGaps(facts: seq<Fact>, key: Key)
    requires key in Table(facts)
    ensures
      var parts := Table(facts)[key];
      && (parts.lineage.None? <==> GapSaid(facts, key, MissingSafeEntryLineage))
      && (parts.lineage == Some(NoPublicSafeEntry) <==> GapSaid(facts, key, NotReachableFromSafeEntry))
      && (parts.lineage == Some(LineageUnresolved) <==> GapSaid(facts, key, SafeEntryLineageUnresolved))
  {
    var parts := Table(facts)[key];
    if parts.lineage.Some? {
      HeldWasSaid(facts, key, Lineage(parts.lineage.value, parts.entryDefPath));
      HeldIffSaidLast(facts, key, Lineage(parts.lineage.value, parts.entryDefPath));
    }
    if lineage, path :| Says(facts, key, Lineage(lineage, path)) { var held := SortIsHeld(facts, key, Lineage(lineage, path)); }
    if path :| SaidLast(facts, key, Lineage(NoPublicSafeEntry, path)) {
      HeldIffSaidLast(facts, key, Lineage(NoPublicSafeEntry, path));
    }
    if path :| SaidLast(facts, key, Lineage(LineageUnresolved, path)) {
      HeldIffSaidLast(facts, key, Lineage(LineageUnresolved, path));
    }
  }

  lemma BindingGaps(facts: seq<Fact>, key: Key)
    requires key in Table(facts)
    ensures
      var parts := Table(facts)[key];
      && (parts.binding.None? <==> GapSaid(facts, key, MissingForeignSymbol))
      && (IsGap(parts, ForeignSymbolUnresolved) <==> GapSaid(facts, key, ForeignSymbolUnresolved))
  {
    var parts := Table(facts)[key];
    if parts.binding.Some? {
      HeldWasSaid(facts, key, SymbolBinding(parts.binding.value));
      HeldIffSaidLast(facts, key, SymbolBinding(parts.binding.value));
    }
    if binding :| Says(facts, key, SymbolBinding(binding)) { var held := SortIsHeld(facts, key, SymbolBinding(binding)); }
    if binding :| SaidLast(facts, key, SymbolBinding(binding)) && (binding.symbol.None? || binding.callbackArgIndex.None?) {
      HeldIffSaidLast(facts, key, SymbolBinding(binding));
    }
  }

  /**
   * From the facts to the outcomes: there is one for each registration a fact mentions; it lists exactly the gaps the
   * facts leave, each once and in order, or is assembled if they leave none, with every stating site as evidence.
   */
  lemma OutcomesTell(facts: seq<Fact>, build: BuildContext, outcomes: map<Key, Assembly>, key: Key)
    requires AssemblesAll(Table(facts), build, outcomes)
    ensures key in outcomes <==> Mentioned(facts, key)
    ensures key in outcomes ==>
      match outcomes[key]
      case Assembled(fact) =>
        && (forall gap :: !GapSaid(facts, key, gap))
        && (forall site :: fact.evidence[site] == |FromSite(facts, key, site)|)
      case Gap(about, gaps) =>
        && about == key && gaps != [] && (forall gap :: gap in gaps <==> GapSaid(facts, key, gap))
        && (forall i, j :: 0 <= i < j < |gaps| ==> GapRank(gaps[i]) < GapRank(gaps[j]))
  {
    KeysAreMentioned(facts, key);
    if key in outcomes {
      SiteCountsRight(Table(facts));
      var parts := Table(facts)[key];
      GapsExact(parts);
      GapsAreSaid(facts, key);
      forall site ensures parts.evidence[site] == |FromSite(facts, key, site)| { EvidenceCounts(facts, key, site); }
      assert outcomes[key] == Outcome(key, parts, SiteCounts(Table(facts)), build);
      if GapsOf(parts) == [] {
        forall gap ensures !GapSaid(facts, key, gap) { assert gap !in GapsOf(parts); }
      }
    }
  }

  lemma GapsAreSaid(facts: seq<Fact>, key: Key)
    requires key in Table(facts)
    ensures forall gap :: IsGap(Table(facts)[key], gap) <==> GapSaid(facts, key, gap)
  {
    MissingMeansUnsaid(facts, key);
    LineageGaps(facts, key);
    BindingGaps(facts, key);
  }
}
