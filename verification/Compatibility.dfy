/** The three-valued verdict on one hand-off, for each kind of lifetime. */
module Compatibility {
  import opened Support
  import opened ForeignFacts

  datatype RegistrationGeneration = UniqueStaticSite | MultipleStaticSites | GenerationUnresolved

  datatype RustHandOffKey = RustHandOffKey(
    rustArtifact: string, buildProfile: string, safeEntryInstance: string, rustDefInstance: string,
    callOccurrence: string, foreignSymbol: string, callbackArgIndex: nat, userdataArgIndex: Option<nat>,
    registrationKey: Option<string>, registrationGeneration: RegistrationGeneration)

  datatype ForeignHandOffKey = ForeignHandOffKey(
    foreignArtifact: string, buildProfile: string, foreignSymbol: string, callbackArgIndex: nat,
    userdataArgIndex: Option<nat>, registrationKey: Option<string>)

  /** The full identity; without a foreign side the foreign part is empty. */
  datatype HandOffId = HandOffId(rust: RustHandOffKey, foreignArtifact: string)

  function FromKeys(rust: RustHandOffKey, foreign: Option<ForeignHandOffKey>): HandOffId {
    HandOffId(rust, if foreign.Some? then foreign.value.foreignArtifact else "")
  }

  /** The overlapping part of both half keys agrees. */
  predicate JoinsWith(rust: RustHandOffKey, foreign: ForeignHandOffKey) {
    && rust.buildProfile == foreign.buildProfile
    && rust.foreignSymbol == foreign.foreignSymbol
    && rust.callbackArgIndex == foreign.callbackArgIndex
    && rust.userdataArgIndex == foreign.userdataArgIndex
    && rust.registrationKey == foreign.registrationKey
  }

  datatype LifetimeSubject = CapturedReferent | CallbackAllocation

  datatype CaptureAdmission = PermitsNonStaticCapture | RequiresStaticCapture | ContextDependent | AdmissionUnresolved

  datatype RegistrationGuard = NoGuard | TiesSlotToSubject | OwnerDropUnregisters | GuardUnresolved

  datatype AllocationOwnership = RustRetainsAndMayFreeEarly | ForeignOwnedUntilUnregister | OwnershipUnresolved

  datatype RustContractFact = RustContractFact(
    handOff: RustHandOffKey, captureAdmission: CaptureAdmission, guard: RegistrationGuard,
    allocation: AllocationOwnership, evidence: multiset<string>)

  datatype ForeignBehaviorFact = ForeignBehaviorFact(
    handOff: ForeignHandOffKey, retention: ForeignRetention, invocation: ForeignInvocation, clear: ForeignClear,
    pathCompatibility: ForeignPathCompatibility, invokeEvidence: Option<EvidenceGrade>)

  /** The behaviour fact built from an analysis; its prose evidence is not part of this model. */
  function BehaviorFact(a: ForeignAnalysis, handOff: ForeignHandOffKey): ForeignBehaviorFact {
    ForeignBehaviorFact(handOff, a.retention, a.invocation, a.clear, a.pathCompatibility, a.invokeEvidence)
  }

  datatype StaticVerdict = SupportedIncompatibility | CompatibleWithinAnalyzedFragment | InsufficientEvidence

  datatype WitnessObligation = EstablishLateInvoke | EstablishJointTrace

  datatype Assumption =
    | IdentityDoesNotMatch
    | ManyStaticSites
    | CaptureAdmissionUnresolved
    | AllocationOwnershipUnresolved
    | GuardShapeUnresolved
    | GuardDefeatedByClear
    | ClearEffectUnresolved
    | GuardWithoutClearEvidence
    | NoForeignFact
    | ForeignRetentionUnresolved
    | ForeignInvocationUnresolved
    | LateInvokeBySameSlotOnly
    | RetentionOnSomePathsOnly
    | PathCompatibilityUnresolved

  datatype CompatibilityVerdict = CompatibilityVerdict(
    handOff: HandOffId, subject: LifetimeSubject, staticVerdict: StaticVerdict, evidenceGrade: Option<EvidenceGrade>,
    witnessObligation: Option<WitnessObligation>, assumptions: seq<Assumption>)

  datatype Tri = Denied | Possible | Unresolved

  /** Whether the types alone rule out that the subject dies before the registration. */
  function ByShape(rust: RustContractFact, subject: LifetimeSubject): (Tri, seq<Assumption>) {
    match subject
    case CapturedReferent => (
      match rust.captureAdmission
      case RequiresStaticCapture => (Denied, [])
      case PermitsNonStaticCapture => (Possible, [])
      case _ => (Unresolved, [CaptureAdmissionUnresolved]))
    case CallbackAllocation =>
      match rust.allocation
      case ForeignOwnedUntilUnregister => (Denied, [])
      case RustRetainsAndMayFreeEarly => (Possible, [])
      case OwnershipUnresolved => (Unresolved, [AllocationOwnershipUnresolved])
  }

  /** Whether safe code can end the subject while the registration lives, and whether a guard was defeated. */
  function SafeLifetimeSeparationPossible(rust: RustContractFact, subject: LifetimeSubject, foreign: Option<ForeignBehaviorFact>)
    : (Tri, bool, seq<Assumption>)
  {
    var (shape, notes) := ByShape(rust, subject);
    if shape == Denied then (Denied, false, notes)
    else match rust.guard
         case NoGuard => (shape, false, notes)
         case GuardUnresolved => (Unresolved, false, notes + [GuardShapeUnresolved])
         case _ =>
           match foreign
           case None => (Unresolved, false, notes + [GuardWithoutClearEvidence])
           case Some(fact) =>
             match fact.clear
             case ClearsOnAllPaths => (Denied, false, notes)
             case MayLeaveSlotPopulated => (shape, true, notes + [GuardDefeatedByClear])
             case ClearUnresolved => (Unresolved, false, notes + [ClearEffectUnresolved])
  }

  function ForeignLateUsePossible(foreign: Option<ForeignBehaviorFact>): (Tri, seq<Assumption>) {
    match foreign
    case None => (Unresolved, [NoForeignFact])
    case Some(fact) =>
      if fact.retention == NoRetain then (Denied, [])
      else if fact.invocation == SynchronousInvokeOnly then (Denied, [])
      else if fact.retention == MayRetain && fact.invocation == MayInvokeAfterReturn then (Possible, [])
      else if fact.retention == RetentionUnresolved then (Unresolved, [ForeignRetentionUnresolved])
      else (Unresolved, [ForeignInvocationUnresolved])
  }

  /** A foreign fact counts only when its identity matches. */
  function Matching(rust: RustContractFact, foreign: Option<ForeignBehaviorFact>): Option<ForeignBehaviorFact> {
    if foreign.Some? && JoinsWith(rust.handOff, foreign.value.handOff) then foreign else None
  }

  function Judge(rust: RustContractFact, foreign: Option<ForeignBehaviorFact>, subject: LifetimeSubject): CompatibilityVerdict {
    var matched := Matching(rust, foreign);
    var identity := if foreign.Some? && matched.None? then [IdentityDoesNotMatch] else [];
    var sites := if rust.handOff.registrationGeneration == MultipleStaticSites then [ManyStaticSites] else [];
    var (separation, guardDefeated, notes) := SafeLifetimeSeparationPossible(rust, subject, matched);
    var (lateUse, lateNotes) := ForeignLateUsePossible(matched);
    var invokeEvidence := if matched.Some? then matched.value.invokeEvidence else None;
    var grade := if guardDefeated then Some(GuardDefeated) else invokeEvidence;
    var assumptions := identity + sites + notes + lateNotes;
    var id := FromKeys(rust.handOff, if matched.Some? then Some(matched.value.handOff) else None);
    if separation == Denied || lateUse == Denied then
      CompatibilityVerdict(id, subject, CompatibleWithinAnalyzedFragment, if guardDefeated then grade else None, None, assumptions)
    else if separation == Possible && lateUse == Possible then
      if invokeEvidence == Some(SameSlotInvokeCandidate) then
        CompatibilityVerdict(id, subject, InsufficientEvidence, grade, Some(EstablishLateInvoke),
                             assumptions + [LateInvokeBySameSlotOnly])
      else if matched.value.pathCompatibility == RetainOnEveryPath then
        CompatibilityVerdict(id, subject, SupportedIncompatibility, grade, None, assumptions)
      else
        CompatibilityVerdict(id, subject, InsufficientEvidence, grade, Some(EstablishJointTrace),
                             assumptions + [if matched.value.pathCompatibility == RetainOnSomePaths
                                            then RetentionOnSomePathsOnly else PathCompatibilityUnresolved])
    else CompatibilityVerdict(id, subject, InsufficientEvidence, grade, None, assumptions)
  }

  function JudgeHandOff(rust: RustContractFact, foreign: Option<ForeignBehaviorFact>): seq<CompatibilityVerdict> {
    [Judge(rust, foreign, CapturedReferent), Judge(rust, foreign, CallbackAllocation)]
  }

  /** The types permit the separation of this subject. */
  predicate ShapePermits(rust: RustContractFact, subject: LifetimeSubject) {
    match subject
    case CapturedReferent => rust.captureAdmission == PermitsNonStaticCapture
    case CallbackAllocation => rust.allocation == RustRetainsAndMayFreeEarly
  }

  predicate ShapeRulesOut(rust: RustContractFact, subject: LifetimeSubject) {
    match subject
    case CapturedReferent => rust.captureAdmission == RequiresStaticCapture
    case CallbackAllocation => rust.allocation == ForeignOwnedUntilUnregister
  }

  predicate Guarded(rust: RustContractFact) {
    rust.guard == TiesSlotToSubject || rust.guard == OwnerDropUnregisters
  }

  /** An incompatibility needs one matched fact that supports every part of the claim at once. */
  lemma IncompatibleIff(rust: RustContractFact, foreign: Option<ForeignBehaviorFact>, subject: LifetimeSubject)
    ensures Judge(rust, foreign, subject).staticVerdict == SupportedIncompatibility <==>
      && foreign.Some? && JoinsWith(rust.handOff, foreign.value.handOff)
      && ShapePermits(rust, subject)
      && (rust.guard == NoGuard || (Guarded(rust) && foreign.value.clear == MayLeaveSlotPopulated))
      && foreign.value.retention == MayRetain && foreign.value.invocation == MayInvokeAfterReturn
      && foreign.value.invokeEvidence != Some(SameSlotInvokeCandidate)
      && foreign.value.pathCompatibility == RetainOnEveryPath
  {
  }

  /** A verdict of compatibility always rests on one of three denials. */
  lemma CompatibleIff(rust: RustContractFact, foreign: Option<ForeignBehaviorFact>, subject: LifetimeSubject)
    ensures Judge(rust, foreign, subject).staticVerdict == CompatibleWithinAnalyzedFragment <==>
      || ShapeRulesOut(rust, subject)
      || (foreign.Some? && JoinsWith(rust.handOff, foreign.value.handOff)
          && ((Guarded(rust) && foreign.value.clear == ClearsOnAllPaths)
              || foreign.value.retention == NoRetain || foreign.value.invocation == SynchronousInvokeOnly))
  {
  }

  /** Without a foreign fact no guard makes an interface compatible, and a foreign fact for another hand-off changes nothing. */
  lemma RustOnlyVerdicts(rust: RustContractFact, foreign: ForeignBehaviorFact, subject: LifetimeSubject)
    ensures Judge(rust, None, subject).staticVerdict == CompatibleWithinAnalyzedFragment <==> ShapeRulesOut(rust, subject)
    ensures Judge(rust, None, subject).staticVerdict != SupportedIncompatibility
    ensures !JoinsWith(rust.handOff, foreign.handOff) ==>
      Judge(rust, Some(foreign), subject).staticVerdict == Judge(rust, None, subject).staticVerdict
  {
    CompatibleIff(rust, None, subject);
    IncompatibleIff(rust, None, subject);
  }

  /** Types and guard leave the separation possible. */
  predicate SeparationPossible(rust: RustContractFact, fact: ForeignBehaviorFact, subject: LifetimeSubject) {
    ShapePermits(rust, subject) && (rust.guard == NoGuard || (Guarded(rust) && fact.clear == MayLeaveSlotPopulated))
  }

  /** An obligation is handed out exactly when both sides are possible and only the link between them is open. */
  lemma ObligationIff(rust: RustContractFact, fact: ForeignBehaviorFact, subject: LifetimeSubject)
    requires JoinsWith(rust.handOff, fact.handOff)
    ensures
      var obligation := Judge(rust, Some(fact), subject).witnessObligation;
      var open := SeparationPossible(rust, fact, subject)
        && fact.retention == MayRetain && fact.invocation == MayInvokeAfterReturn;
      && (obligation == Some(EstablishLateInvoke) <==> open && fact.invokeEvidence == Some(SameSlotInvokeCandidate))
      && (obligation == Some(EstablishJointTrace) <==>
            && open && fact.invokeEvidence != Some(SameSlotInvokeCandidate) && fact.pathCompatibility != RetainOnEveryPath)
  {
  }

  /** A verdict that leaves the question open always says why. */
  lemma InsufficientSaysWhy(rust: RustContractFact, foreign: Option<ForeignBehaviorFact>, subject: LifetimeSubject)
    ensures Judge(rust, foreign, subject).staticVerdict == InsufficientEvidence ==> Judge(rust, foreign, subject).assumptions != []
    ensures Judge(rust, foreign, subject).witnessObligation.Some? ==>
      Judge(rust, foreign, subject).staticVerdict == InsufficientEvidence
  {
    var matched := Matching(rust, foreign);
    var (separation, guardDefeated, notes) := SafeLifetimeSeparationPossible(rust, subject, matched);
    var (lateUse, lateNotes) := ForeignLateUsePossible(matched);
    assert separation == Unresolved ==> notes != [];
    assert lateUse == Unresolved ==> lateNotes != [];
  }

  // ---- A verdict as a whole ----

  predicate Joins(rust: RustContractFact, foreign: Option<ForeignBehaviorFact>) {
    foreign.Some? && JoinsWith(rust.handOff, foreign.value.handOff)
  }

  /** A guard that the foreign clear entry leaves without effect. */
  predicate GuardIsDefeated(rust: RustContractFact, foreign: Option<ForeignBehaviorFact>, subject: LifetimeSubject) {
    Joins(rust, foreign) && !ShapeRulesOut(rust, subject) && Guarded(rust) && foreign.value.clear == MayLeaveSlotPopulated
  }

  predicate BothPossible(rust: RustContractFact, foreign: Option<ForeignBehaviorFact>, subject: LifetimeSubject) {
    && Joins(rust, foreign) && SeparationPossible(rust, foreign.value, subject)
    && foreign.value.retention == MayRetain && foreign.value.invocation == MayInvokeAfterReturn
  }

  /** When a verdict has to name the assumption. */
  predicate Assumes(rust: RustContractFact, foreign: Option<ForeignBehaviorFact>, subject: LifetimeSubject, a: Assumption) {
    match a
    case IdentityDoesNotMatch => foreign.Some? && !Joins(rust, foreign)
    case ManyStaticSites => rust.handOff.registrationGeneration == MultipleStaticSites
    case CaptureAdmissionUnresolved =>
      subject == CapturedReferent && rust.captureAdmission in {ContextDependent, AdmissionUnresolved}
    case AllocationOwnershipUnresolved => subject == CallbackAllocation && rust.allocation == OwnershipUnresolved
    case GuardShapeUnresolved => !ShapeRulesOut(rust, subject) && rust.guard == GuardUnresolved
    case GuardDefeatedByClear => GuardIsDefeated(rust, foreign, subject)
    case ClearEffectUnresolved =>
      !ShapeRulesOut(rust, subject) && Guarded(rust) && Joins(rust, foreign) && foreign.value.clear == ClearUnresolved
    case GuardWithoutClearEvidence => !ShapeRulesOut(rust, subject) && Guarded(rust) && !Joins(rust, foreign)
    case NoForeignFact => !Joins(rust, foreign)
    case ForeignRetentionUnresolved =>
      && Joins(rust, foreign) && foreign.value.retention == RetentionUnresolved
      && foreign.value.invocation != SynchronousInvokeOnly
    case ForeignInvocationUnresolved =>
      Joins(rust, foreign) && foreign.value.retention == MayRetain && foreign.value.invocation == InvocationUnresolved
    case LateInvokeBySameSlotOnly =>
      BothPossible(rust, foreign, subject) && foreign.value.invokeEvidence == Some(SameSlotInvokeCandidate)
    case RetentionOnSomePathsOnly =>
      && BothPossible(rust, foreign, subject) && foreign.value.invokeEvidence != Some(SameSlotInvokeCandidate)
      && foreign.value.pathCompatibility == RetainOnSomePaths
    case PathCompatibilityUnresolved =>
      && BothPossible(rust, foreign, subject) && foreign.value.invokeEvidence != Some(SameSlotInvokeCandidate)
      && foreign.value.pathCompatibility == PathUnresolved
  }

  /** Identity first, then the sites, the types, the guard, the foreign fact, and last what keeps two possibilities apart. */
  function AssumptionRank(a: Assumption): nat {
    match a
    case IdentityDoesNotMatch => 0
    case ManyStaticSites => 1
    case CaptureAdmissionUnresolved => 2
    case AllocationOwnershipUnresolved => 2
    case GuardShapeUnresolved => 3
    case GuardDefeatedByClear => 3
    case ClearEffectUnresolved => 3
    case GuardWithoutClearEvidence => 3
    case NoForeignFact => 4
    case ForeignRetentionUnresolved => 4
    case ForeignInvocationUnresolved => 4
    case LateInvokeBySameSlotOnly => 5
    case RetentionOnSomePathsOnly => 5
    case PathCompatibilityUnresolved => 5
  }

  ghost predicate AssumptionsFit(rust: RustContractFact, foreign: Option<ForeignBehaviorFact>, subject: LifetimeSubject,
                                 assumptions: seq<Assumption>) {
    && (forall a :: a in assumptions <==> Assumes(rust, foreign, subject, a))
    && (forall i, j :: 0 <= i < j < |assumptions| ==> AssumptionRank(assumptions[i]) < AssumptionRank(assumptions[j]))
  }

  ghost predicate StatusFits(rust: RustContractFact, foreign: Option<ForeignBehaviorFact>, subject: LifetimeSubject,
                             verdict: CompatibilityVerdict) {
    && (verdict.staticVerdict == SupportedIncompatibility <==>
          && BothPossible(rust, foreign, subject) && foreign.value.invokeEvidence != Some(SameSlotInvokeCandidate)
          && foreign.value.pathCompatibility == RetainOnEveryPath)
    && (verdict.staticVerdict == CompatibleWithinAnalyzedFragment <==>
          || ShapeRulesOut(rust, subject)
          || (Joins(rust, foreign)
              && ((Guarded(rust) && foreign.value.clear == ClearsOnAllPaths)
                  || foreign.value.retention == NoRetain || foreign.value.invocation == SynchronousInvokeOnly)))
  }

  ghost predicate ObligationFits(rust: RustContractFact, foreign: Option<ForeignBehaviorFact>, subject: LifetimeSubject,
                                 obligation: Option<WitnessObligation>) {
    && (obligation == Some(EstablishLateInvoke) <==>
          BothPossible(rust, foreign, subject) && foreign.value.invokeEvidence == Some(SameSlotInvokeCandidate))
    && (obligation == Some(EstablishJointTrace) <==>
          && BothPossible(rust, foreign, subject) && foreign.value.invokeEvidence != Some(SameSlotInvokeCandidate)
          && foreign.value.pathCompatibility != RetainOnEveryPath)
  }

  /** A defeated guard is always reported; otherwise only a verdict that is not compatible keeps the invoke evidence. */
  ghost predicate GradeFits(rust: RustContractFact, foreign: Option<ForeignBehaviorFact>, subject: LifetimeSubject,
                            verdict: CompatibilityVerdict) {
    verdict.evidenceGrade ==
      if GuardIsDefeated(rust, foreign, subject) then Some(GuardDefeated)
      else if Joins(rust, foreign) && verdict.staticVerdict != CompatibleWithinAnalyzedFragment then foreign.value.invokeEvidence
      else None
  }

  /** Everything a verdict says, from the two facts. */
  ghost predicate VerdictFits(rust: RustContractFact, foreign: Option<ForeignBehaviorFact>, subject: LifetimeSubject,
                              verdict: CompatibilityVerdict) {
    && verdict.subject == subject
    && verdict.handOff == HandOffId(rust.handOff, if Joins(rust, foreign) then foreign.value.handOff.foreignArtifact else "")
    && StatusFits(rust, foreign, subject, verdict) && ObligationFits(rust, foreign, subject, verdict.witnessObligation)
    && GradeFits(rust, foreign, subject, verdict) && AssumptionsFit(rust, foreign, subject, verdict.assumptions)
  }

  /** Every judgement is as the conditions say. */
  lemma JudgeFits(rust: RustContractFact, foreign: Option<ForeignBehaviorFact>, subject: LifetimeSubject)
    ensures VerdictFits(rust, foreign, subject, Judge(rust, foreign, subject))
  {
    JudgeStatus(rust, foreign, subject);
    JudgeAssumes(rust, foreign, subject);
  }

  lemma JudgeStatus(rust: RustContractFact, foreign: Option<ForeignBehaviorFact>, subject: LifetimeSubject)
    ensures
      var verdict := Judge(rust, foreign, subject);
      && StatusFits(rust, foreign, subject, verdict) && GradeFits(rust, foreign, subject, verdict)
      && ObligationFits(rust, foreign, subject, verdict.witnessObligation)
  {
    IncompatibleIff(rust, foreign, subject);
    CompatibleIff(rust, foreign, subject);
    if Joins(rust, foreign) { ObligationIff(rust, foreign.value, subject); }
  }

  /** Of the assumptions in a range of ranks the list holds exactly those that apply, in order. */
  ghost predicate ListsRanks(rust: RustContractFact, foreign: Option<ForeignBehaviorFact>, subject: LifetimeSubject,
                             list: seq<Assumption>, low: nat, high: nat) {
    && (forall a :: a in list <==> low <= AssumptionRank(a) < high && Assumes(rust, foreign, subject, a))
    && (forall i, j :: 0 <= i < j < |list| ==> AssumptionRank(list[i]) < AssumptionRank(list[j]))
  }

  lemma ListsJoin(rust: RustContractFact, foreign: Option<ForeignBehaviorFact>, subject: LifetimeSubject,
                  a: seq<Assumption>, b: seq<Assumption>, low: nat, middle: nat, high: nat)
    requires low <= middle <= high
    requires ListsRanks(rust, foreign, subject, a, low, middle) && ListsRanks(rust, foreign, subject, b, middle, high)
    ensures ListsRanks(rust, foreign, subject, a + b, low, high)
  {
    forall i, j | 0 <= i < j < |a + b| ensures AssumptionRank((a + b)[i]) < AssumptionRank((a + b)[j]) {
      assert i < |a| ==> (a + b)[i] in a;
      assert j >= |a| ==> (a + b)[j] in b;
    }
  }

  /** The last part: why two possibilities do not make an incompatibility. */
  function Closing(rust: RustContractFact, foreign: Option<ForeignBehaviorFact>, subject: LifetimeSubject): seq<Assumption> {
    if !BothPossible(rust, foreign, subject) then []
    else if foreign.value.invokeEvidence == Some(SameSlotInvokeCandidate) then [LateInvokeBySameSlotOnly]
    else match foreign.value.pathCompatibility
         case RetainOnEveryPath => []
         case RetainOnSomePaths => [RetentionOnSomePathsOnly]
         case PathUnresolved => [PathCompatibilityUnresolved]
  }

  function IdentityNotes(rust: RustContractFact, foreign: Option<ForeignBehaviorFact>): seq<Assumption> {
    if foreign.Some? && Matching(rust, foreign).None? then [IdentityDoesNotMatch] else []
  }

  function SiteNotes(rust: RustContractFact): seq<Assumption> {
    if rust.handOff.registrationGeneration == MultipleStaticSites then [ManyStaticSites] else []
  }

  /** What the second step of the separation adds. */
  function GuardNotes(rust: RustContractFact, foreign: Option<ForeignBehaviorFact>, subject: LifetimeSubject): seq<Assumption> {
    if ShapeRulesOut(rust, subject) || rust.guard.NoGuard? then []
    else if rust.guard.GuardUnresolved? then [GuardShapeUnresolved]
    else if !Joins(rust, foreign) then [GuardWithoutClearEvidence]
    else match foreign.value.clear
         case ClearsOnAllPaths => []
         case MayLeaveSlotPopulated => [GuardDefeatedByClear]
         case ClearUnresolved => [ClearEffectUnresolved]
  }

  lemma JudgeParts(rust: RustContractFact, foreign: Option<ForeignBehaviorFact>, subject: LifetimeSubject)
    ensures Judge(rust, foreign, subject).assumptions
      == IdentityNotes(rust, foreign) + SiteNotes(rust)
         + SafeLifetimeSeparationPossible(rust, subject, Matching(rust, foreign)).2
         + ForeignLateUsePossible(Matching(rust, foreign)).1
         + Closing(rust, foreign, subject)
  {
  }

  lemma SeparationParts(rust: RustContractFact, foreign: Option<ForeignBehaviorFact>, subject: LifetimeSubject)
    ensures SafeLifetimeSeparationPossible(rust, subject, Matching(rust, foreign)).2
      == ByShape(rust, subject).1 + GuardNotes(rust, foreign, subject)
  {
  }

  lemma FirstNotes(rust: RustContractFact, foreign: Option<ForeignBehaviorFact>, subject: LifetimeSubject)
    ensures ListsRanks(rust, foreign, subject, IdentityNotes(rust, foreign), 0, 1)
    ensures ListsRanks(rust, foreign, subject, SiteNotes(rust), 1, 2)
  {
  }

  lemma ShapeNotes(rust: RustContractFact, foreign: Option<ForeignBehaviorFact>, subject: LifetimeSubject)
    ensures ListsRanks(rust, foreign, subject, ByShape(rust, subject).1, 2, 3)
  {
  }

  lemma GuardNotesFit(rust: RustContractFact, foreign: Option<ForeignBehaviorFact>, subject: LifetimeSubject)
    ensures ListsRanks(rust, foreign, subject, GuardNotes(rust, foreign, subject), 3, 4)
  {
  }

  lemma LateUseNotes(rust: RustContractFact, foreign: Option<ForeignBehaviorFact>, subject: LifetimeSubject)
    ensures ListsRanks(rust, foreign, subject, ForeignLateUsePossible(Matching(rust, foreign)).1, 4, 5)
  {
  }

  lemma ClosingNotes(rust: RustContractFact, foreign: Option<ForeignBehaviorFact>, subject: LifetimeSubject)
    ensures ListsRanks(rust, foreign, subject, Closing(rust, foreign, subject), 5, 6)
  {
  }

  lemma NotesJoin(rust: RustContractFact, foreign: Option<ForeignBehaviorFact>, subject: LifetimeSubject,
                  identity: seq<Assumption>, sites: seq<Assumption>, shape: seq<Assumption>, guard: seq<Assumption>,
                  late: seq<Assumption>, closing: seq<Assumption>)
    requires ListsRanks(rust, foreign, subject, identity, 0, 1) && ListsRanks(rust, foreign, subject, sites, 1, 2)
    requires ListsRanks(rust, foreign, subject, shape, 2, 3) && ListsRanks(rust, foreign, subject, guard, 3, 4)
    requires ListsRanks(rust, foreign, subject, late, 4, 5) && ListsRanks(rust, foreign, subject, closing, 5, 6)
    ensures ListsRanks(rust, foreign, subject, identity + sites + (shape + guard) + late + closing, 0, 6)
  {
    ListsJoin(rust, foreign, subject, identity, sites, 0, 1, 2);
    ListsJoin(rust, foreign, subject, shape, guard, 2, 3, 4);
    ListsJoin(rust, foreign, subject, identity + sites, shape + guard, 0, 2, 4);
    ListsJoin(rust, foreign, subject, identity + sites + (shape + guard), late, 0, 4, 5);
    ListsJoin(rust, foreign, subject, identity + sites + (shape + guard) + late, closing, 0, 5, 6);
  }

  lemma AllRanks(rust: RustContractFact, foreign: Option<ForeignBehaviorFact>, subject: LifetimeSubject, list: seq<Assumption>)
    requires ListsRanks(rust, foreign, subject, list, 0, 6)
    ensures AssumptionsFit(rust, foreign, subject, list)
  {
  }

  lemma JudgeAssumes(rust: RustContractFact, foreign: Option<ForeignBehaviorFact>, subject: LifetimeSubject)
    ensures AssumptionsFit(rust, foreign, subject, Judge(rust, foreign, subject).assumptions)
  {
    JudgeParts(rust, foreign, subject);
    SeparationParts(rust, foreign, subject);
    FirstNotes(rust, foreign, subject);
    ShapeNotes(rust, foreign, subject);
    GuardNotesFit(rust, foreign, subject);
    LateUseNotes(rust, foreign, subject);
    ClosingNotes(rust, foreign, subject);
    NotesJoin(rust, foreign, subject, IdentityNotes(rust, foreign), SiteNotes(rust), ByShape(rust, subject).1,
              GuardNotes(rust, foreign, subject), ForeignLateUsePossible(Matching(rust, foreign)).1,
              Closing(rust, foreign, subject));
    AllRanks(rust, foreign, subject, Judge(rust, foreign, subject).assumptions);
  }

  /** Lists in strictly growing rank that hold the same assumptions are the same list. */
  lemma {:induction false} RankedListIsUnique(a: seq<Assumption>, b: seq<Assumption>)
    requires forall x :: x in a <==> x in b
    requires forall i, j :: 0 <= i < j < |a| ==> AssumptionRank(a[i]) < AssumptionRank(a[j])
    requires forall i, j :: 0 <= i < j < |b| ==> AssumptionRank(b[i]) < AssumptionRank(b[j])
    ensures a == b
  {
    if b != [] { assert b[0] in a; }
    if a != [] {
      assert a[0] in b && b[0] in a;
      assert a[0] == b[0];
      forall x ensures x in a[1..] <==> x in b[1..] {
        assert x in a <==> x == a[0] || x in a[1..];
        assert x in b <==> x == b[0] || x in b[1..];
      }
      RankedListIsUnique(a[1..], b[1..]);
      assert a == [a[0]] + a[1..] && b == [b[0]] + b[1..];
    }
  }

  /** The conditions leave no choice: they determine the whole verdict. */
  lemma VerdictIsDetermined(rust: RustContractFact, foreign: Option<ForeignBehaviorFact>, subject: LifetimeSubject,
                            verdict: CompatibilityVerdict)
    requires VerdictFits(rust, foreign, subject, verdict)
    ensures verdict == Judge(rust, foreign, subject)
  {
    JudgeFits(rust, foreign, subject);
    var judged := Judge(rust, foreign, subject);
    RankedListIsUnique(verdict.assumptions, judged.assumptions);
    assert verdict.staticVerdict == judged.staticVerdict;
    assert verdict.witnessObligation == judged.witnessObligation by {
      match verdict.witnessObligation
      case None =>
      case Some(EstablishLateInvoke) =>
      case Some(EstablishJointTrace) =>
    }
  }

  /** One verdict for each subject, the captured referent first. */
  ghost predicate VerdictsFit(rust: RustContractFact, foreign: Option<ForeignBehaviorFact>, verdicts: seq<CompatibilityVerdict>) {
    && |verdicts| == 2
    && VerdictFits(rust, foreign, CapturedReferent, verdicts[0])
    && VerdictFits(rust, foreign, CallbackAllocation, verdicts[1])
  }

  lemma JudgeHandOffFits(rust: RustContractFact, foreign: Option<ForeignBehaviorFact>)
    ensures VerdictsFit(rust, foreign, JudgeHandOff(rust, foreign))
  {
    JudgeFits(rust, foreign, CapturedReferent);
    JudgeFits(rust, foreign, CallbackAllocation);
  }
}
