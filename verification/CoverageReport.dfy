/** The coverage report every compiler process adds its findings to. */
module CoverageReport {
  import opened Support
  import opened Paths

  /** The lists of a report; an entry stands for its fields in declaration order. */
  datatype Field = ExpectedPackages | SeenPackages | SeenTargets | SeenBodies | Skipped

  datatype Report = Report(
    expectedPackages: seq<string>, seenPackages: seq<string>, seenTargets: seq<string>, seenBodies: seq<string>,
    skipped: seq<string>)

  function Get(report: Report, field: Field): seq<string> {
    match field
    case ExpectedPackages => report.expectedPackages
    case SeenPackages => report.seenPackages
    case SeenTargets => report.seenTargets
    case SeenBodies => report.seenBodies
    case Skipped => report.skipped
  }

  function Empty(expectedPackages: seq<string>): Report {
    Report(expectedPackages, [], [], [], [])
  }

  ghost function Joined(left: seq<string>, right: seq<string>): seq<string> {
    SortedNames(SetOf(left) + SetOf(right))
  }

  ghost function Merged(left: Report, right: Report): Report {
    Report(Joined(left.expectedPackages, right.expectedPackages), Joined(left.seenPackages, right.seenPackages),
           Joined(left.seenTargets, right.seenTargets), Joined(left.seenBodies, right.seenBodies),
           Joined(left.skipped, right.skipped))
  }

  /** A merged list is sorted, has no duplicates and holds the entries of both. */
  lemma MergedField(left: Report, right: Report, field: Field)
    ensures Sorted(Get(Merged(left, right), field))
    ensures forall entry :: entry in Get(Merged(left, right), field) <==> entry in Get(left, field) || entry in Get(right, field)
  {
    SortedNamesSorts(SetOf(Get(left, field)) + SetOf(Get(right, field)));
  }

  lemma SortedHasNoDuplicates(names: seq<string>)
    requires Sorted(names)
    ensures forall i, j :: 0 <= i < j < |names| ==> names[i] != names[j]
  {
    forall i, j | 0 <= i < j < |names| ensures names[i] != names[j] {
      LessIrreflexive(names[i]);
    }
  }

  method Union(left: seq<string>, right: seq<string>) returns (union: seq<string>)
    ensures union == Joined(left, right)
  {
    union := SortNames((set entry | entry in left) + (set entry | entry in right));
  }

  class MirCoverageReport {
    var expectedPackages: seq<string>
    var seenPackages: seq<string>
    var seenTargets: seq<string>
    var seenBodies: seq<string>
    var skipped: seq<string>

    function Contents(): Report
      reads this
    {
      Report(expectedPackages, seenPackages, seenTargets, seenBodies, skipped)
    }

    constructor (report: Report)
      ensures Contents() == report
    {
      expectedPackages, seenPackages, seenTargets := report.expectedPackages, report.seenPackages, report.seenTargets;
      seenBodies, skipped := report.seenBodies, report.skipped;
    }

    method Merge(other: Report)
      modifies this
      ensures Contents() == Merged(old(Contents()), other)
    {
      expectedPackages := Union(expectedPackages, other.expectedPackages);
      seenPackages := Union(seenPackages, other.seenPackages);
      seenTargets := Union(seenTargets, other.seenTargets);
      seenBodies := Union(seenBodies, other.seenBodies);
      skipped := Union(skipped, other.skipped);
    }
  }
}
