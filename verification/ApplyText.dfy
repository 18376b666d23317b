/** The V4A engine on whole texts: newline styles, create-file diffs, and the round trip end to end. */
module ApplyText {
  import opened PyText
  import opened Results
  import opened Chunks
  import opened ApplyDiff
  import opened ApplyDiffLoops
  import opened ApplyDiffRoundTrip
  import opened Seqs

  // ---------------------------------------------------------------- lines and texts

  /** `text.split("\n")`. */
  function Split(text: string): (lines: seq<string>)
    ensures lines != []
  {
    if text == "" then [""]
    else
      var rest := Split(text[1..]);
      if text[0] == '\n' then [""] + rest else [[text[0]] + rest[0]] + rest[1..]
  }

  /** `newline.join(lines)`. */
  function Join(lines: seq<string>, newline: string): string {
    if lines == [] then "" else if |lines| == 1 then lines[0] else lines[0] + newline + Join(lines[1..], newline)
  }

  /** `text.replace("\r\n", "\n")`. */
  function Normalized(text: string): string
    decreases |text|
  {
    if text == "" then ""
    else if |text| >= 2 && text[0] == '\r' && text[1] == '\n' then "\n" + Normalized(text[2..])
    else [text[0]] + Normalized(text[1..])
  }

  predicate HasCrLf(text: string) {
    exists k | 0 <= k < |text| - 1 :: text[k] == '\r' && text[k + 1] == '\n'
  }

  function NewlineOf(text: string): string {
    if HasCrLf(text) then "\r\n" else "\n"
  }

  function RStripCr(s: string): string {
    if s != "" && s[|s| - 1] == '\r' then RStripCr(s[..|s| - 1]) else s
  }

  function StripAll(lines: seq<string>): (r: seq<string>)
    ensures |r| == |lines|
  {
    seq(|lines|, k requires 0 <= k < |lines| => RStripCr(lines[k]))
  }

  /** `_normalize_diff_lines`: cutting at `\r?\n` is cutting the normalized text at newlines. */
  function DiffLines(diff: string): seq<string> {
    var lines := StripAll(Split(Normalized(diff)));
    if lines[|lines| - 1] == "" then lines[..|lines| - 1] else lines
  }

  function DetectNewline(input: string, diff: string, create: bool): string {
    if !create && '\n' in input then NewlineOf(input) else NewlineOf(diff)
  }

  // ---------------------------------------------------------------- create-file diffs

  function Prepend(line: string, r: Result<seq<string>, DiffError>): Result<seq<string>, DiffError> {
    match r case Err(e) => Err(e) case Ok(rest) => Ok([line] + rest)
  }

  /** The lines of a new file, from the diff's line `index` on. */
  function CreateFrom(lines: seq<string>, index: nat): Result<seq<string>, DiffError>
    decreases |lines| - index
  {
    if Done(lines, index, SECTION_TERMINATORS) then Ok([])
    else if !StartsWith(lines[index], "+") then Err(InvalidAddLine(lines[index]))
    else Prepend(lines[index][1..], CreateFrom(lines, index + 1))
  }

  function Appended(output: seq<string>, r: Result<seq<string>, DiffError>): Result<seq<string>, DiffError> {
    match r case Err(e) => Err(e) case Ok(rest) => Ok(output + rest)
  }

  /** The Python loop of `_parse_create_diff`. */
  method ParseCreateDiff(lines: seq<string>) returns (r: Result<seq<string>, DiffError>)
    ensures r == CreateFrom(lines + [END_PATCH], 0)
  {
    hide Done;
    var parser := new ParserState(lines + [END_PATCH]);
    var output: seq<string> := [];
    ghost var all := CreateFrom(parser.lines, 0);
    NothingAppended(all);
    while !Done(parser.lines, parser.index, SECTION_TERMINATORS)
      invariant all == Appended(output, CreateFrom(parser.lines, parser.index))
      decreases |parser.lines| - parser.index
    {
      DoneAtEnd(parser.lines, parser.index);
      var line := parser.lines[parser.index];
      ghost var rest := CreateFrom(parser.lines, parser.index + 1);
      parser.index := parser.index + 1;
      if !StartsWith(line, "+") { return Err(InvalidAddLine(line)); }
      OneAppended(output, line[1..], rest);
      output := output + [line[1..]];
    }
    assert output + [] == output;
    return Ok(output);
  }

  lemma DoneAtEnd(lines: seq<string>, index: nat)
    requires !Done(lines, index, SECTION_TERMINATORS)
    ensures index < |lines|
  {}

  lemma NothingAppended(r: Result<seq<string>, DiffError>)
    ensures Appended([], r) == r
  {
    if r.Ok? { assert [] + r.value == r.value; }
  }

  lemma OneAppended(output: seq<string>, line: string, r: Result<seq<string>, DiffError>)
    ensures Appended(output, Prepend(line, r)) == Appended(output + [line], r)
  {
    if r.Ok? { Regroup(output, [line], r.value); }
  }

  function Joined(r: Result<seq<string>, DiffError>, newline: string): Result<string, DiffError> {
    match r case Err(e) => Err(e) case Ok(lines) => Ok(Join(lines, newline))
  }

  /** `apply_diff`. */
  function ApplyDiffText(input: string, diff: string, create: bool): Result<string, DiffError> {
    var newline := DetectNewline(input, diff, create);
    if create then Joined(CreateFrom(DiffLines(diff) + [END_PATCH], 0), newline)
    else Joined(Update(DiffLines(diff), Split(Normalized(input))), newline)
  }

  // ---------------------------------------------------------------- splitting, joining, normalizing

  function Replaced(text: string, newline: string): string {
    if text == "" then "" else (if text[0] == '\n' then newline else [text[0]]) + Replaced(text[1..], newline)
  }

  lemma JoinCons(c: char, lines: seq<string>, newline: string)
    requires lines != []
    ensures Join([[c] + lines[0]] + lines[1..], newline) == [c] + Join(lines, newline)
  {
    var more := [[c] + lines[0]] + lines[1..];
    assert more[1..] == lines[1..];
    if |lines| > 1 {
      Regroup([c], lines[0], newline);
      Regroup([c], lines[0] + newline, Join(lines[1..], newline));
    }
  }

  /** Joining what was split replaces the newlines, and nothing else. */
  lemma {:induction false} JoinOfSplit(text: string, newline: string)
    ensures Join(Split(text), newline) == Replaced(text, newline)
    decreases |text|
  {
    if text != "" {
      var rest := Split(text[1..]);
      JoinOfSplit(text[1..], newline);
      if text[0] == '\n' {
        assert ([""] + rest)[1..] == rest;
        assert "" + newline == newline;
      } else {
        JoinCons(text[0], rest, newline);
      }
    }
  }

  lemma {:induction false} ReplacedByItself(text: string)
    ensures Replaced(text, "\n") == text
    decreases |text|
  {
    if text != "" {
      ReplacedByItself(text[1..]);
      assert text == [text[0]] + text[1..];
    }
  }

  lemma {:induction false} NothingToNormalize(text: string)
    requires !HasCrLf(text)
    ensures Normalized(text) == text
    decreases |text|
  {
    if text != "" {
      forall k | 0 <= k < |text[1..]| - 1
        ensures !(text[1..][k] == '\r' && text[1..][k + 1] == '\n')
      {
        assert text[1..][k] == text[k + 1] && text[1..][k + 1] == text[k + 2];
      }
      NothingToNormalize(text[1..]);
      assert text == [text[0]] + text[1..];
    }
  }

  /** Newlines that no carriage return precedes; `after` when one precedes the text. */
  function LoneNewlines(text: string, after: bool): nat
    decreases |text|
  {
    if text == "" then 0
    else (if text[0] == '\n' && !after then 1 else 0) + LoneNewlines(text[1..], text[0] == '\r')
  }

  lemma RestoredPair(rest: string)
    ensures Replaced(Normalized("\r\n" + rest), "\r\n") == "\r\n" + Replaced(Normalized(rest), "\r\n")
    ensures LoneNewlines("\r\n" + rest, false) == LoneNewlines(rest, false)
  {
    var text := "\r\n" + rest;
    assert text[2..] == rest && text[1..][0] == '\n' && text[1..][1..] == rest;
    assert ("\n" + Normalized(rest))[1..] == Normalized(rest);
    assert LoneNewlines(text[1..], true) == LoneNewlines(rest, false);
  }

  lemma RestoredChar(c: char, rest: string)
    requires c == '\r' && rest != "" ==> rest[0] != '\n'
    ensures Replaced(Normalized([c] + rest), "\r\n") == (if c == '\n' then "\r\n" else [c]) + Replaced(Normalized(rest), "\r\n")
    ensures LoneNewlines([c] + rest, false) == (if c == '\n' then 1 else 0) + LoneNewlines(rest, false)
  {
    var text := [c] + rest;
    assert text[1..] == rest;
    assert ([c] + Normalized(rest))[1..] == Normalized(rest);
    AfterMattersOnce(rest, c == '\r');
  }

  lemma {:induction false} RestoredIsLonger(text: string)
    ensures |Replaced(Normalized(text), "\r\n")| == |text| + LoneNewlines(text, false)
    ensures LoneNewlines(text, false) == 0 ==> Replaced(Normalized(text), "\r\n") == text
    decreases |text|
  {
    if text == "" {
    } else {
      hide Normalized, Replaced, LoneNewlines;
      if |text| >= 2 && text[0] == '\r' && text[1] == '\n' {
        RestoredIsLonger(text[2..]);
        RestoredPair(text[2..]);
        assert text == "\r\n" + text[2..];
      } else {
        RestoredIsLonger(text[1..]);
        RestoredChar(text[0], text[1..]);
        assert text == [text[0]] + text[1..];
      }
    }
  }

  lemma AfterMattersOnce(text: string, after: bool)
    requires text == "" || text[0] != '\n' || !after
    ensures LoneNewlines(text, after) == LoneNewlines(text, false)
  {}

  /** One newline style throughout. */
  predicate Uniform(text: string) {
    HasCrLf(text) ==> LoneNewlines(text, false) == 0
  }

  /** An empty diff gives back the text exactly when its newlines are all of one style: a text that
      mixes them comes back with every newline as CRLF. */
  lemma EmptyDiffKeepsUniformText(input: string)
    ensures ApplyDiffText(input, "", false) == Ok(Replaced(Normalized(input), DetectNewline(input, "", false)))
    ensures ApplyDiffText(input, "", false) == Ok(input) <==> Uniform(input)
  {
    hide Normalized, HasCrLf;
    var lines := Split(Normalized(input));
    NoDiffNoLines();
    NoHunksNoChange(lines);
    var newline := DetectNewline(input, "", false);
    JoinOfSplit(Normalized(input), newline);
    if HasCrLf(input) {
      HasNewline(input);
      RestoredIsLonger(input);
    } else {
      NoCrLfInEmpty();
      NothingToNormalize(input);
      ReplacedByItself(input);
    }
  }

  lemma HasNewline(text: string)
    requires HasCrLf(text)
    ensures '\n' in text
  {
    var k :| 0 <= k < |text| - 1 && text[k] == '\r' && text[k + 1] == '\n';
    assert text[k + 1] in text;
  }

  lemma NoCrLfInEmpty()
    ensures !HasCrLf("")
  {}

  lemma NoDiffNoLines()
    ensures DiffLines("") == []
  {
    assert Normalized("") == "" && Split("") == [""];
    assert StripAll([""])[0] == RStripCr("") == "";
    assert StripAll([""])[..0] == [];
  }

  lemma NoHunksNoChange(lines: seq<string>)
    requires lines != []
    ensures Update([], lines) == Ok(lines)
  {
    hide ParseRound;
    assert [] + [END_PATCH] == [END_PATCH];
    assert StartsWith(END_PATCH, END_SECTION_MARKERS[0]);
    assert ParseUpdate([], lines) == Ok(Parsed([], 0));
    assert lines[0..|lines|] == lines;
  }

  // ---------------------------------------------------------------- the round trip on texts

  /** A line that keeps its identity in a text: it has no newline and does not end in a carriage return. */
  predicate Clean(line: string) {
    (forall k | 0 <= k < |line| :: line[k] != '\n') && (line != "" ==> line[|line| - 1] != '\r')
  }

  predicate AllClean(lines: seq<string>) {
    forall k | 0 <= k < |lines| :: Clean(lines[k])
  }

  predicate IsNewline(newline: string) {
    newline == "\n" || newline == "\r\n"
  }

  lemma {:induction false} NormalizedLine(line: string, newline: string, rest: string)
    requires Clean(line) && IsNewline(newline)
    ensures Normalized(line + newline + rest) == line + "\n" + Normalized(rest)
    decreases |line|
  {
    hide Normalized;
    if line == "" {
      assert line + newline == newline && line + "\n" == "\n";
      NormalizedBreak(newline, rest);
    } else {
      var c, tail := [line[0]], line[1..] + newline + rest;
      CleanTail(line);
      NormalizedLine(line[1..], newline, rest);
      assert line == c + line[1..];
      Regroup(c, line[1..], newline);
      Regroup(c, line[1..] + newline, rest);
      assert line[0] == '\r' ==> tail[0] != '\n' by { if |line| > 1 { assert tail[0] == line[1]; } }
      NormalizedChar(line[0], tail);
      Regroup(c, line[1..], "\n");
      Regroup(c, line[1..] + "\n", Normalized(rest));
    }
  }

  lemma NormalizedBreak(newline: string, rest: string)
    requires IsNewline(newline)
    ensures Normalized(newline + rest) == "\n" + Normalized(rest)
  {
    var text := newline + rest;
    if newline == "\n" { assert text[0] == '\n' && text[1..] == rest; }
    else { assert text[0] == '\r' && text[1] == '\n' && text[2..] == rest; }
  }

  lemma NormalizedChar(c: char, tail: string)
    requires c == '\r' && tail != "" ==> tail[0] != '\n'
    ensures Normalized([c] + tail) == [c] + Normalized(tail)
  {
    var text := [c] + tail;
    assert text[1..] == tail && (tail != "" ==> text[1] == tail[0]);
  }

  lemma CleanTail(line: string)
    requires Clean(line) && line != ""
    ensures Clean(line[1..])
  {}

  lemma {:induction false} NormalizedEnd(line: string)
    requires Clean(line)
    ensures Normalized(line) == line
    decreases |line|
  {
    if line != "" {
      CleanTail(line);
      NormalizedEnd(line[1..]);
      assert line == [line[0]] + line[1..];
    }
  }

  lemma {:induction false} NormalizedJoin(lines: seq<string>, newline: string)
    requires AllClean(lines) && IsNewline(newline)
    ensures Normalized(Join(lines, newline)) == Join(lines, "\n")
    decreases |lines|
  {
    hide Clean, Normalized;
    if lines == [] {
      NormalizedEmpty();
    } else if |lines| == 1 {
      NormalizedEnd(lines[0]);
    } else {
      NormalizedJoin(lines[1..], newline);
      NormalizedLine(lines[0], newline, Join(lines[1..], newline));
    }
  }

  lemma NormalizedEmpty()
    ensures Normalized("") == ""
  {}

  lemma {:induction false} SplitLine(line: string, rest: string)
    requires Clean(line)
    ensures Split(line + "\n" + rest) == [line] + Split(rest)
    decreases |line|
  {
    var text := line + "\n" + rest;
    if line == "" {
      assert text[0] == '\n' && text[1..] == rest;
    } else {
      CleanTail(line);
      SplitLine(line[1..], rest);
      assert text[1..] == line[1..] + "\n" + rest;
      assert ([line[1..]] + Split(rest))[1..] == Split(rest);
      assert line == [line[0]] + line[1..];
    }
  }

  lemma {:induction false} SplitEnd(line: string)
    requires Clean(line)
    ensures Split(line) == [line]
    decreases |line|
  {
    if line != "" {
      CleanTail(line);
      SplitEnd(line[1..]);
      assert line == [line[0]] + line[1..];
      assert [line[1..]][1..] == [];
    }
  }

  /** Splitting gives back the lines that were joined. */
  lemma {:induction false} SplitOfJoin(lines: seq<string>)
    requires AllClean(lines) && lines != []
    ensures Split(Join(lines, "\n")) == lines
    decreases |lines|
  {
    hide Clean, Split;
    if |lines| == 1 {
      SplitEnd(lines[0]);
    } else {
      SplitOfJoin(lines[1..]);
      SplitLine(lines[0], Join(lines[1..], "\n"));
      assert lines == [lines[0]] + lines[1..];
    }
  }

  lemma LinesOfText(lines: seq<string>, newline: string)
    requires AllClean(lines) && lines != [] && IsNewline(newline)
    ensures Split(Normalized(Join(lines, newline))) == lines
  {
    NormalizedJoin(lines, newline);
    SplitOfJoin(lines);
  }

  lemma LinesOfDiff(lines: seq<string>, newline: string)
    requires AllClean(lines) && lines != [] && IsNewline(newline) && lines[|lines| - 1] != ""
    ensures DiffLines(Join(lines, newline)) == lines
  {
    LinesOfText(lines, newline);
    hide Split, Normalized, Join;
    assert StripAll(lines) == lines;
  }

  lemma JoinHead(lines: seq<string>, newline: string)
    requires |lines| >= 2
    ensures Join(lines, newline) == lines[0] + newline + Join(lines[1..], newline)
  {}

  /** The newline style of a text of several clean lines is the one it was joined with. */
  lemma {:induction false} StyleOfText(lines: seq<string>, newline: string)
    requires AllClean(lines) && IsNewline(newline)
    ensures HasCrLf(Join(lines, newline)) <==> |lines| >= 2 && newline == "\r\n"
    ensures '\n' in Join(lines, newline) <==> |lines| >= 2
    decreases |lines|
  {
    if |lines| >= 2 {
      var rest := Join(lines[1..], newline);
      StyleOfText(lines[1..], newline);
      hide Join;
      JoinHead(lines, newline);
      StyleOfLine(lines[0], newline, rest);
    }
  }

  lemma StyleOfLine(line: string, newline: string, rest: string)
    requires Clean(line) && IsNewline(newline)
    ensures HasCrLf(line + newline + rest) <==> newline == "\r\n" || HasCrLf(rest)
    ensures '\n' in line + newline + rest
  {
    var text, at := line + newline + rest, |line| + |newline|;
    assert forall k | 0 <= k < |rest| :: text[at + k] == rest[k];
    assert forall k | 0 <= k < |line| :: text[k] == line[k];
    assert text[at - 1] == '\n';
    if newline == "\r\n" {
      assert text[|line|] == '\r' && text[|line| + 1] == '\n';
    } else {
      if k :| 0 <= k < |text| - 1 && text[k] == '\r' && text[k + 1] == '\n' {
        assert k >= at;
        assert rest[k - at] == '\r' && rest[k - at + 1] == '\n';
      }
      if k :| 0 <= k < |rest| - 1 && rest[k] == '\r' && rest[k + 1] == '\n' {
        assert text[at + k] == '\r' && text[at + k + 1] == '\n';
      }
    }
  }

  predicate CleanHunk(hunk: Hunk) {
    forall k | 0 <= k < |hunk| :: Clean(hunk[k].text)
  }

  /** The lines of a block can be written in a text. */
  predicate CleanBlock(block: Block) {
    block.hunk != [] && CleanHunk(block.hunk) && AllClean(block.headers)
  }

  predicate Solid(lines: seq<string>) {
    forall k | 0 <= k < |lines| :: Clean(lines[k]) && lines[k] != ""
  }

  lemma {:induction false} PrintIsClean(blocks: seq<Block>, first: bool)
    requires forall k | 0 <= k < |blocks| :: CleanBlock(blocks[k])
    ensures Solid(Print(blocks, first)) && (blocks != [] ==> Print(blocks, first) != [])
    decreases |blocks|
  {
    hide CleanBlock, Solid;
    if blocks == [] {
      NothingIsSolid();
    } else {
      PrintIsClean(blocks[1..], false);
      BlockIsClean(blocks[0], first);
      SolidConcat(Marks(blocks[0].headers, first), Body(blocks[0]));
      SolidConcat(Marks(blocks[0].headers, first) + Body(blocks[0]), Print(blocks[1..], false));
    }
  }

  lemma NothingIsSolid()
    ensures Solid([])
  {}

  lemma SolidConcat(a: seq<string>, b: seq<string>)
    requires Solid(a) && Solid(b)
    ensures Solid(a + b)
  {}

  lemma BlockIsClean(block: Block, first: bool)
    requires CleanBlock(block)
    ensures Solid(Marks(block.headers, first)) && Solid(Body(block)) && Body(block) != []
  {
    MarkerIsClean(END_FILE);
    MarkerIsClean("@@");
    hide Clean;
    forall k | 0 <= k < |block.hunk|
      ensures Clean(PrintHunk(block.hunk)[k]) && PrintHunk(block.hunk)[k] != ""
    {
      PrintedIsClean(block.hunk[k]);
    }
    forall k | 0 <= k < |block.headers|
      ensures Clean("@@ " + block.headers[k])
    {
      HeaderIsClean(block.headers[k]);
    }
  }

  lemma MarkerIsClean(marker: string)
    requires marker == "@@" || marker == END_FILE
    ensures Clean(marker)
  {}

  lemma HeaderIsClean(header: string)
    requires Clean(header)
    ensures Clean("@@ " + header)
  {
    var line := "@@ " + header;
    assert forall k | 3 <= k < |line| :: line[k] == header[k - 3];
  }

  lemma PrintedIsClean(e: Edit)
    requires Clean(e.text)
    ensures Clean(PrintEdit(e)) && PrintEdit(e) != ""
  {
    var line := PrintEdit(e);
    assert forall k | 1 <= k < |line| :: line[k] == e.text[k - 1];
  }

  /** End to end: a printed edit, joined in either newline style, applied to the text of a file in
      either style, gives the text of the edited file in the file's own style; a file without any
      newline takes the style of the diff. */
  lemma PrintedTextApplies(base: seq<string>, blocks: seq<Block>, targets: seq<Target>, newline: string, diffNewline: string)
    requires base != [] && AllClean(base) && IsNewline(newline) && IsNewline(diffNewline)
    requires blocks != [] && |blocks| == |targets| && Located(base, blocks, targets, 0)
    requires forall k | 0 <= k < |blocks| :: CleanBlock(blocks[k])
    ensures var diff := Join(Print(blocks, true), diffNewline);
            var style := if |base| >= 2 then newline else NewlineOf(diff);
            ApplyDiffText(Join(base, newline), diff, false) == Ok(Join(Edited(base, blocks, targets, 0), style))
  {
    var lines := Print(blocks, true);
    PrintIsClean(blocks, true);
    LinesOfText(base, newline);
    LinesOfDiff(lines, diffNewline);
    StyleOfText(base, newline);
    PrintedEditApplies(base, blocks, targets);
    hide Split, Normalized, Join, Print, Located, Edited, Update, DiffLines, Clean, HasCrLf;
  }

  // ---------------------------------------------------------------- creating files

  function PrintAdded(lines: seq<string>): (r: seq<string>)
    ensures |r| == |lines|
  {
    seq(|lines|, k requires 0 <= k < |lines| => "+" + lines[k])
  }

  lemma {:induction false} CreateReads(lines: seq<string>, index: nat)
    requires index <= |lines|
    ensures CreateFrom(PrintAdded(lines) + [END_PATCH], index) == Ok(lines[index..])
    decreases |lines| - index
  {
    var diff := PrintAdded(lines) + [END_PATCH];
    if index == |lines| {
      assert diff[index] == END_PATCH && StartsWith(END_PATCH, SECTION_TERMINATORS[0]);
    } else {
      CreateReads(lines, index + 1);
      assert diff[index] == "+" + lines[index];
      AddedIsNotDone(lines[index]);
      assert lines[index..] == [lines[index]] + lines[index + 1..];
    }
  }

  lemma AddedIsNotDone(line: string)
    ensures !StartsWithAny("+" + line, SECTION_TERMINATORS)
  {
    var text := "+" + line;
    forall k | 0 <= k < |SECTION_TERMINATORS|
      ensures !StartsWith(text, SECTION_TERMINATORS[k])
    {
      assert SECTION_TERMINATORS[k][0] == '*' && text[0] == '+';
    }
  }

  /** Every text of clean lines can be written as a create-file diff that makes it, byte for byte. */
  lemma PrintedFileIsCreated(lines: seq<string>, newline: string, input: string)
    requires lines != [] && AllClean(lines) && IsNewline(newline)
    ensures ApplyDiffText(input, Join(PrintAdded(lines), newline), true) == Ok(Join(lines, newline))
  {
    var diff := PrintAdded(lines);
    forall k | 0 <= k < |diff|
      ensures Clean(diff[k]) && diff[k] != ""
    {
      PrintedIsClean(Add(lines[k]));
    }
    LinesOfDiff(diff, newline);
    CreateReads(lines, 0);
    assert lines[0..] == lines;
    StyleOfText(diff, newline);
    hide Normalized, Split, DiffLines, HasCrLf, CreateFrom, Clean;
  }

  // ---------------------------------------------------------------- which files can be created

  lemma UniformIsJoined(text: string)
    ensures Join(Split(Normalized(text)), NewlineOf(text)) == text <==> Uniform(text)
  {
    hide Normalized, HasCrLf;
    JoinOfSplit(Normalized(text), NewlineOf(text));
    if HasCrLf(text) {
      RestoredIsLonger(text);
    } else {
      NothingToNormalize(text);
      ReplacedByItself(text);
    }
  }

  predicate NoBreak(line: string) {
    forall k | 0 <= k < |line| :: line[k] != '\n'
  }

  lemma {:induction false} SplitHasNoBreaks(text: string)
    ensures forall k | 0 <= k < |Split(text)| :: NoBreak(Split(text)[k])
    decreases |text|
  {
    if text != "" { SplitHasNoBreaks(text[1..]); }
  }

  lemma {:induction false} StrippedIsClean(line: string)
    requires NoBreak(line)
    ensures Clean(RStripCr(line))
    decreases |line|
  {
    if line != "" && line[|line| - 1] == '\r' { StrippedIsClean(line[..|line| - 1]); }
  }

  lemma DiffLinesAreClean(diff: string)
    ensures AllClean(DiffLines(diff))
  {
    hide Split, Normalized, RStripCr, Clean, NoBreak;
    var lines := Split(Normalized(diff));
    SplitHasNoBreaks(Normalized(diff));
    forall k | 0 <= k < |lines|
      ensures Clean(StripAll(lines)[k])
    {
      StrippedIsClean(lines[k]);
    }
  }

  lemma {:induction false} CreatedLinesAreClean(lines: seq<string>, index: nat)
    requires AllClean(lines) && CreateFrom(lines, index).Ok?
    ensures AllClean(CreateFrom(lines, index).value)
    decreases |lines| - index
  {
    hide StartsWithAny, Clean;
    if !Done(lines, index, SECTION_TERMINATORS) {
      CreatedLinesAreClean(lines, index + 1);
      CleanTail(lines[index]);
    }
  }

  /** A create-file diff can make a text exactly when its newlines are of one style and none of its
      lines ends in a carriage return of its own. */
  lemma CreatableExactly(text: string, input: string)
    ensures (exists diff :: ApplyDiffText(input, diff, true) == Ok(text)) <==>
            Uniform(text) && AllClean(Split(Normalized(text)))
  {
    hide ApplyDiffText, Uniform, Split, Normalized, AllClean;
    forall diff | ApplyDiffText(input, diff, true) == Ok(text)
      ensures Uniform(text) && AllClean(Split(Normalized(text)))
    {
      CreatedIsUniform(text, input, diff);
    }
    if Uniform(text) && AllClean(Split(Normalized(text))) {
      UniformIsJoined(text);
      var lines := Split(Normalized(text));
      PrintedFileIsCreated(lines, NewlineOf(text), input);
    }
  }

  lemma CreatedIsUniform(text: string, input: string, diff: string)
    requires ApplyDiffText(input, diff, true) == Ok(text)
    ensures Uniform(text) && AllClean(Split(Normalized(text)))
  {
    hide CreateFrom, DiffLines, HasCrLf, Split, Normalized, Uniform, LoneNewlines;
    var lines := CreateFrom(DiffLines(diff) + [END_PATCH], 0).value;
    var newline := NewlineOf(diff);
    DiffLinesAreClean(diff);
    CreatedLinesAreClean(DiffLines(diff) + [END_PATCH], 0);
    if lines == [] {
      EmptyTextIsCreatable();
    } else {
      LinesOfText(lines, newline);
      StyleOfText(lines, newline);
      UniformIsJoined(text);
    }
  }

  lemma EmptyTextIsCreatable()
    ensures Uniform("") && AllClean(Split(Normalized("")))
  {
    assert Normalized("") == "" && Split("") == [""];
  }
}
