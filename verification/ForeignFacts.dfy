/** The vocabulary in which foreign behaviour is reported. */
module ForeignFacts {
  import opened Support
  import opened ForeignIr

  datatype ForeignRetention = MayRetain | NoRetain | RetentionUnresolved

  datatype ForeignInvocation = MayInvokeAfterReturn | SynchronousInvokeOnly | InvocationUnresolved

  datatype ForeignClear = ClearsOnAllPaths | MayLeaveSlotPopulated | ClearUnresolved

  datatype ForeignPathCompatibility = RetainOnEveryPath | RetainOnSomePaths | PathUnresolved

  datatype EvidenceGrade = SameSlotInvokeCandidate | ReachableMayInvoke | PathSupportedLateInvoke | GuardDefeated

  datatype ForeignRoleMap = ForeignRoleMap(
    registerSymbol: string,
    callbackArgIndex: nat,
    userdataArgIndex: Option<nat>,
    clearSymbol: Option<string>)

  datatype RetainedSubject = Callback | UserData

  datatype RetentionSite = RetentionSite(
    subject: RetainedSubject, slot: SlotId, symbol: string, instruction: string, onEveryReturningPath: bool)

  datatype SlotClearEvidence =
    | WritesNullOnEveryPath
    | OverwrittenByArgumentOnEveryPath
    | WrittenOnSomePaths
    | NotWritten
    | WrittenWithUnresolvedValue

  datatype ClearSite = ClearSite(slot: SlotId, evidence: SlotClearEvidence, symbol: string, instruction: Option<string>)

  datatype InvokeSite = InvokeSite(slot: SlotId, symbol: string, instruction: string)

  datatype BoundaryReason =
    | SymbolNotDefined
    | ParamIndexOutOfRange
    | EscapesToUnknownCallee
    | StoreToUnresolvedPointer
    | SlotNotProvenCallerOwned
    | ClearOnlyOnSomePaths
    | UsedByUnmodelledInstruction
    | ControlFlowIncomplete
    | NoClearEntryDeclared

  datatype AnalysisBoundary = AnalysisBoundary(symbol: string, reason: BoundaryReason, instruction: Option<string>)

  datatype ForeignAnalysis = ForeignAnalysis(
    retention: ForeignRetention,
    invocation: ForeignInvocation,
    clear: ForeignClear,
    pathCompatibility: ForeignPathCompatibility,
    invokeEvidence: Option<EvidenceGrade>,
    slots: set<SlotId>,
    retentionSites: seq<RetentionSite>,
    clearSites: seq<ClearSite>,
    invokeSites: seq<InvokeSite>,
    boundaries: seq<AnalysisBoundary>)
}
