/** Which files and directories of a run directory count as evidence, and what their names look like. */
module RunLayout {

  const NUL: string := [0 as char]

  datatype Layout = Layout(
    header: string, findings: string, artifacts: string, observations: string, witnesses: string, logs: string,
    children: string, traces: string, checksums: string)
  {
    function ObservationsPath(): string {
      artifacts + "/" + observations
    }

    /** The directory trees that are hashed whole. */
    function Roots(): seq<string> {
      [artifacts + "/" + witnesses, logs + "/" + children, traces]
    }
  }

  const EVIDENCE := Layout(
    "boundary-witness.runner-evidence-digest/0.1" + NUL, "findings.jsonl", "artifacts", "observations.jsonl", "witnesses",
    "logs", "children", "traces", "checksums.sha256")

  /** A name a file system allows, without a backslash. */
  predicate Plain(name: string) {
    name != "" && '/' !in name && '\\' !in name && '\0' !in name
  }

  /** All names are plain, and those in one directory are different. */
  predicate Sensible(layout: Layout) {
    && Plain(layout.findings) && Plain(layout.artifacts) && Plain(layout.observations) && Plain(layout.witnesses)
    && Plain(layout.logs) && Plain(layout.children) && Plain(layout.traces) && Plain(layout.checksums)
    && NamesDiffer(layout)
  }

  predicate NamesDiffer(layout: Layout) {
    && layout.findings !in {layout.artifacts, layout.logs, layout.traces, layout.checksums}
    && layout.artifacts !in {layout.logs, layout.traces, layout.checksums}
    && layout.logs !in {layout.traces, layout.checksums} && layout.traces != layout.checksums
    && layout.observations != layout.witnesses
  }

  lemma FilesArePlain()
    ensures Plain("findings.jsonl")
  {
  }

  lemma ObservationsArePlain()
    ensures Plain("observations.jsonl")
  {
  }

  lemma ChecksumsArePlain()
    ensures Plain("checksums.sha256")
  {
  }

  lemma DirectoriesArePlain()
    ensures Plain("artifacts") && Plain("witnesses")
    ensures Plain("logs") && Plain("children") && Plain("traces")
  {
  }

  lemma EvidenceNamesDiffer()
    ensures NamesDiffer(EVIDENCE)
  {
  }

  lemma EvidenceIsSensible()
    ensures Sensible(EVIDENCE)
  {
    FilesArePlain();
    ObservationsArePlain();
    ChecksumsArePlain();
    DirectoriesArePlain();
    EvidenceNamesDiffer();
  }
}
