/** The structural parts of the text reader: cutting at top-level separators, comments, and numbering instructions. */
module IrText {
  import opened Support
  import opened ForeignIr

  // ---- Top level ----

  predicate Opens(c: char) { c == '(' || c == '[' || c == '{' || c == '<' }

  predicate Closes(c: char) { c == ')' || c == ']' || c == '}' || c == '>' }

  /** An odd number of quotes stands before position `i`. */
  function InQuotes(text: string, i: nat): bool
    requires i <= |text|
  {
    i > 0 && (if text[i - 1] == '"' then !InQuotes(text, i - 1) else InQuotes(text, i - 1))
  }

  /** Brackets opened less brackets closed before position `i`, outside quotes. */
  function Depth(text: string, i: nat): int
    requires i <= |text|
  {
    if i == 0 then 0
    else
      Depth(text, i - 1)
      + (if InQuotes(text, i - 1) then 0
         else if text[i - 1] in "([{<" then 1
         else if text[i - 1] in ")]}>" then -1 else 0)
  }

  /** A separator outside brackets and quotes; quotes and brackets never separate. */
  predicate IsCut(text: string, separator: char, i: nat)
    requires i < |text|
  {
    text[i] == separator && Plain(separator) && Depth(text, i) == 0 && !InQuotes(text, i)
  }

  /** Separators that are neither quotes nor brackets. */
  predicate Plain(separator: char) {
    separator !in "\"([{<)]}>"
  }

  /** Where the piece that position `i` belongs to starts. */
  function PieceStart(text: string, separator: char, i: nat): (start: nat)
    requires i <= |text|
    ensures start <= i
  {
    if i == 0 then 0 else if IsCut(text, separator, i - 1) then i else PieceStart(text, separator, i - 1)
  }

  /** The pieces completed before position `i`. */
  function PiecesBefore(text: string, separator: char, i: nat): seq<string>
    requires i <= |text|
  {
    if i == 0 then []
    else if IsCut(text, separator, i - 1)
    then PiecesBefore(text, separator, i - 1) + [text[PieceStart(text, separator, i - 1)..i - 1]]
    else PiecesBefore(text, separator, i - 1)
  }

  function Pieces(text: string, separator: char): seq<string> {
    PiecesBefore(text, separator, |text|) + [text[PieceStart(text, separator, |text|)..]]
  }

  method SplitTopLevel(text: string, separator: char) returns (parts: seq<string>)
    ensures parts == Pieces(text, separator)
  {
    parts := [];
    var depth, inString, start := 0, false, 0;
    for index := 0 to |text|
      invariant depth == Depth(text, index) && inString == InQuotes(text, index)
      invariant start == PieceStart(text, separator, index) && parts == PiecesBefore(text, separator, index)
    {
      var c := text[index];
      if c == '"' {
        inString := !inString;
      } else if Opens(c) && !inString {
        depth := depth + 1;
      } else if Closes(c) && !inString {
        depth := depth - 1;
      } else if c == separator && depth == 0 && !inString {
        parts := parts + [text[start..index]];
        start := index + 1;
      }
    }
    parts := parts + [text[start..]];
  }

  function Joined(parts: seq<string>, separator: char): string {
    if parts == [] then ""
    else if |parts| == 1 then parts[0]
    else Joined(parts[..|parts| - 1], separator) + [separator] + parts[|parts| - 1]
  }

  lemma JoinGrows(parts: seq<string>, piece: string, c: char, separator: char)
    ensures Joined(parts + [piece + [c]], separator) == Joined(parts + [piece], separator) + [c]
  {
    assert (parts + [piece])[..|parts|] == parts && (parts + [piece + [c]])[..|parts|] == parts;
    if parts != [] {
      assert Joined(parts, separator) + [separator] + (piece + [c]) == Joined(parts, separator) + [separator] + piece + [c];
    }
  }

  lemma JoinCut(parts: seq<string>, separator: char)
    requires parts != []
    ensures Joined(parts + [""], separator) == Joined(parts, separator) + [separator]
  {
    assert (parts + [""])[..|parts|] == parts;
  }

  lemma CutStep(text: string, separator: char, i: nat)
    requires i < |text| && IsCut(text, separator, i)
    ensures PiecesBefore(text, separator, i + 1) == PiecesBefore(text, separator, i) + [text[PieceStart(text, separator, i)..i]]
    ensures PieceStart(text, separator, i + 1) == i + 1
    ensures text[i] == separator
  {
  }

  lemma PlainStep(text: string, separator: char, i: nat)
    requires i < |text| && !IsCut(text, separator, i)
    ensures PiecesBefore(text, separator, i + 1) == PiecesBefore(text, separator, i)
    ensures PieceStart(text, separator, i + 1) == PieceStart(text, separator, i)
  {
  }

  lemma {:induction false} PrefixJoins(text: string, separator: char, i: nat)
    requires i <= |text|
    ensures Joined(PiecesBefore(text, separator, i) + [text[PieceStart(text, separator, i)..i]], separator) == text[..i]
  {
    if i > 0 {
      PrefixJoins(text, separator, i - 1);
      var parts, start := PiecesBefore(text, separator, i - 1), PieceStart(text, separator, i - 1);
      assert text[..i] == text[..i - 1] + [text[i - 1]];
      if IsCut(text, separator, i - 1) {
        CutStep(text, separator, i - 1);
        JoinCut(parts + [text[start..i - 1]], separator);
        assert text[i..i] == "";
      } else {
        PlainStep(text, separator, i - 1);
        JoinGrows(parts, text[start..i - 1], text[i - 1], separator);
        assert text[start..i] == text[start..i - 1] + [text[i - 1]];
      }
    }
  }

  /** Joining the pieces with the separator gives the text back. */
  lemma PiecesJoin(text: string, separator: char)
    ensures Joined(Pieces(text, separator), separator) == text
  {
    PrefixJoins(text, separator, |text|);
    assert text[..|text|] == text && text[PieceStart(text, separator, |text|)..|text|] == text[PieceStart(text, separator, |text|)..];
  }

  /** The piece runs from one cut, or the start of the text, to the next one, with none inside. */
  ghost predicate RunsBetweenCuts(text: string, separator: char, piece: string, from: nat, end: nat) {
    && from <= end <= |text| && piece == text[from..end]
    && (from > 0 ==> IsCut(text, separator, from - 1))
    && (end < |text| ==> IsCut(text, separator, end))
    && forall i :: from <= i < end ==> !IsCut(text, separator, i)
  }

  lemma {:induction false} NoCutInPiece(text: string, separator: char, i: nat, j: nat)
    requires i <= |text| && PieceStart(text, separator, i) <= j < i
    ensures !IsCut(text, separator, j)
  {
    if j < i - 1 { NoCutInPiece(text, separator, i - 1, j); }
  }

  lemma {:induction false} StartFollowsCut(text: string, separator: char, i: nat)
    requires i <= |text|
    ensures PieceStart(text, separator, i) > 0 ==> IsCut(text, separator, PieceStart(text, separator, i) - 1)
  {
    if i > 0 && !IsCut(text, separator, i - 1) { StartFollowsCut(text, separator, i - 1); }
  }

  lemma PieceRuns(text: string, separator: char, end: nat)
    requires end <= |text| && (end < |text| ==> IsCut(text, separator, end))
    ensures
      var from := PieceStart(text, separator, end);
      RunsBetweenCuts(text, separator, text[from..end], from, end)
  {
    StartFollowsCut(text, separator, end);
    forall i | PieceStart(text, separator, end) <= i < end ensures !IsCut(text, separator, i) {
      NoCutInPiece(text, separator, end, i);
    }
  }

  /** No piece is cut inside brackets or quotes, and none keeps a separator at top level. */
  lemma {:induction false} CompletedPiece(text: string, separator: char, i: nat, k: nat) returns (from: nat, end: nat)
    requires i <= |text| && k < |PiecesBefore(text, separator, i)|
    ensures RunsBetweenCuts(text, separator, PiecesBefore(text, separator, i)[k], from, end)
  {
    if k < |PiecesBefore(text, separator, i - 1)| {
      from, end := CompletedPiece(text, separator, i - 1, k);
    } else {
      from, end := PieceStart(text, separator, i - 1), i - 1;
      PieceRuns(text, separator, i - 1);
    }
  }

  lemma EveryPiece(text: string, separator: char, k: nat) returns (from: nat, end: nat)
    requires k < |Pieces(text, separator)|
    ensures RunsBetweenCuts(text, separator, Pieces(text, separator)[k], from, end)
  {
    if k < |PiecesBefore(text, separator, |text|)| {
      from, end := CompletedPiece(text, separator, |text|, k);
    } else {
      from, end := PieceStart(text, separator, |text|), |text|;
      PieceRuns(text, separator, |text|);
      assert text[from..] == text[from..end];
    }
  }

  /** Cuts off a line comment: everything from the first semicolon outside quotes. */
  method StripComment(line: string) returns (code: string)
    ensures code <= line
    ensures forall i :: 0 <= i < |code| && line[i] == ';' ==> InQuotes(line, i)
    ensures code != line ==> line[|code|] == ';' && !InQuotes(line, |code|)
  {
    var inString := false;
    for index := 0 to |line|
      invariant inString == InQuotes(line, index)
      invariant forall i :: 0 <= i < index && line[i] == ';' ==> InQuotes(line, i)
    {
      if line[index] == '"' {
        inString := !inString;
      } else if line[index] == ';' && !inString {
        return line[..index];
      }
    }
    return line;
  }

  // ---- Numbering ----

  /** What the reader makes of one line; only its place is added here. */
  datatype Line = LabelLine(tag: string) | InstLine(result: Option<string>, kind: InstKind, text: string)

  function InstLines(body: seq<Line>): seq<Line> {
    if body == [] then []
    else
      var last := body[|body| - 1];
      InstLines(body[..|body| - 1]) + if last.InstLine? then [last] else []
  }

  function Labels(body: seq<Line>): seq<string> {
    if body == [] then []
    else
      var last := body[|body| - 1];
      Labels(body[..|body| - 1]) + if last.LabelLine? then [last.tag] else []
  }

  /** For each instruction line, how many labels stand before it. */
  function Places(body: seq<Line>): seq<nat> {
    if body == [] then []
    else
      var front, last := body[..|body| - 1], body[|body| - 1];
      Places(front) + if last.InstLine? then [|Labels(front)|] else []
  }

  /** Every instruction knows its block. */
  ghost predicate KnowBlocks(blocks: seq<Block>) {
    forall b, i :: 0 <= b < |blocks| && 0 <= i < |blocks[b].insts| ==> blocks[b].insts[i].block == b
  }

  /** The blocks hold the instruction lines in order, numbered from zero. */
  ghost predicate HoldLines(insts: seq<Inst>, lines: seq<Line>) {
    && |insts| == |lines|
    && forall k :: 0 <= k < |insts| ==>
         && lines[k].InstLine? && insts[k].ordinal == k
         && insts[k].result == lines[k].result && insts[k].kind == lines[k].kind && insts[k].text == lines[k].text
  }

  /** Each instruction is in the block of the last label before it. */
  ghost predicate InPlace(insts: seq<Inst>, places: seq<nat>) {
    |insts| == |places| && forall k :: 0 <= k < |insts| ==> insts[k].block == places[k]
  }

  ghost predicate HoldLabels(blocks: seq<Block>, labels: seq<string>) {
    && |blocks| == |labels| + 1 && blocks[0].tag == None
    && forall k :: 0 <= k < |labels| ==> blocks[k + 1].tag == Some(labels[k])
  }

  lemma {:induction false} FlattenSnoc(blocks: seq<Block>, block: Block)
    ensures Flatten(blocks + [block]) == Flatten(blocks) + block.insts
  {
    if blocks == [] {
      assert [block][1..] == [];
    } else {
      assert (blocks + [block])[1..] == blocks[1..] + [block];
      FlattenSnoc(blocks[1..], block);
    }
  }

  /** Appending to the last block appends to the whole list. */
  lemma AppendToLast(blocks: seq<Block>, inst: Inst)
    requires blocks != []
    ensures
      var last := |blocks| - 1;
      Flatten(blocks[last := blocks[last].(insts := blocks[last].insts + [inst])]) == Flatten(blocks) + [inst]
  {
    var last := |blocks| - 1;
    FlattenSnoc(blocks[..last], blocks[last]);
    FlattenSnoc(blocks[..last], blocks[last].(insts := blocks[last].insts + [inst]));
    assert blocks == blocks[..last] + [blocks[last]];
    assert blocks[last := blocks[last].(insts := blocks[last].insts + [inst])]
        == blocks[..last] + [blocks[last].(insts := blocks[last].insts + [inst])];
  }

  /** The blocks are what the lines read so far amount to. */
  ghost predicate Reads(blocks: seq<Block>, body: seq<Line>) {
    && blocks != [] && KnowBlocks(blocks)
    && HoldLines(Flatten(blocks), InstLines(body)) && HoldLabels(blocks, Labels(body))
    && InPlace(Flatten(blocks), Places(body))
  }

  lemma LabelReads(blocks: seq<Block>, body: seq<Line>, tag: string)
    requires Reads(blocks, body)
    ensures Reads(blocks + [Block(Some(tag), [])], body + [LabelLine(tag)])
  {
    assert (body + [LabelLine(tag)])[..|body|] == body;
    FlattenSnoc(blocks, Block(Some(tag), []));
  }

  lemma InstReads(blocks: seq<Block>, body: seq<Line>, line: Line)
    requires Reads(blocks, body) && line.InstLine?
    ensures
      var last := |blocks| - 1;
      var inst := Inst(line.result, line.kind, last, |Flatten(blocks)|, line.text);
      Reads(blocks[last := blocks[last].(insts := blocks[last].insts + [inst])], body + [line])
  {
    var last := |blocks| - 1;
    assert (body + [line])[..|body|] == body;
    AppendToLast(blocks, Inst(line.result, line.kind, last, |Flatten(blocks)|, line.text));
  }

  /** Numbers the instructions of a function body through, and opens a new block at every label. */
  method ParseFunction(name: string, params: seq<string>, body: seq<Line>) returns (f: Function)
    ensures f.name == name && f.params == params
    ensures KnowBlocks(f.blocks)
    ensures HoldLines(Insts(f), InstLines(body))
    ensures HoldLabels(f.blocks, Labels(body)) && InPlace(Insts(f), Places(body))
  {
    var blocks := [Block(None, [])];
    var ordinal := 0;
    assert blocks[1..] == [] && body[..0] == [] && body[..|body|] == body;
    for k := 0 to |body|
      invariant ordinal == |Flatten(blocks)| && Reads(blocks, body[..k])
    {
      assert body[..k + 1] == body[..k] + [body[k]];
      match body[k] {
        case LabelLine(tag) =>
          LabelReads(blocks, body[..k], tag);
          FlattenSnoc(blocks, Block(Some(tag), []));
          blocks := blocks + [Block(Some(tag), [])];
        case InstLine(result, kind, text) =>
          var block := |blocks| - 1;
          var inst := Inst(result, kind, block, ordinal, text);
          InstReads(blocks, body[..k], body[k]);
          AppendToLast(blocks, inst);
          blocks := blocks[block := blocks[block].(insts := blocks[block].insts + [inst])];
          ordinal := ordinal + 1;
      }
    }
    f := Function(name, params, blocks);
  }
}
