/** Printing an edit as a V4A diff and applying the diff makes exactly that edit. */
module ApplyDiffRoundTrip {
  import opened PyText
  import opened Results
  import opened Chunks
  import opened ApplyDiff
  import opened ApplyDiffTheorems
  import opened Seqs

  /** One line of an edit script: kept, deleted from the old side, or added to the new side. */
  datatype Edit = Keep(text: string) | Delete(text: string) | Add(text: string)

  type Hunk = seq<Edit>

  function Before(e: Edit): seq<string> {
    if e.Add? then [] else [e.text]
  }

  function After(e: Edit): seq<string> {
    if e.Delete? then [] else [e.text]
  }

  function OldSide(hunk: Hunk): seq<string> {
    if hunk == [] then [] else Before(hunk[0]) + OldSide(hunk[1..])
  }

  function NewSide(hunk: Hunk): seq<string> {
    if hunk == [] then [] else After(hunk[0]) + NewSide(hunk[1..])
  }

  function PrintEdit(e: Edit): string {
    match e
    case Keep(t) => " " + t
    case Delete(t) => "-" + t
    case Add(t) => "+" + t
  }

  function PrintHunk(hunk: Hunk): (r: seq<string>)
    ensures |r| == |hunk|
  {
    seq(|hunk|, k requires 0 <= k < |hunk| => PrintEdit(hunk[k]))
  }

  /** A hunk, the headers that lead to it, and whether an end-of-file marker follows it. */
  datatype Block = Block(headers: seq<string>, hunk: Hunk, eof: bool)

  /** The `@@` lines in front of a hunk: its headers, or a bare marker that the first hunk does not need. */
  function Marks(headers: seq<string>, first: bool): (r: seq<string>)
    ensures |r| == if headers == [] then if first then 0 else 1 else |headers|
  {
    if headers == [] then if first then [] else ["@@"]
    else seq(|headers|, k requires 0 <= k < |headers| => "@@ " + headers[k])
  }

  /** The lines of a hunk, and its marker. */
  function Body(block: Block): (r: seq<string>)
    ensures |r| == |block.hunk| + if block.eof then 1 else 0
  {
    PrintHunk(block.hunk) + if block.eof then [END_FILE] else []
  }

  /** The hunks in V4A form. */
  function Print(blocks: seq<Block>, first: bool): seq<string> {
    if blocks == [] then []
    else Marks(blocks[0].headers, first) + Body(blocks[0]) + Print(blocks[1..], false)
  }

  /** The lines stand exactly at `at`, and nowhere before it from line `from` on. */
  predicate StandsFirst(base: seq<string>, lines: seq<string>, from: nat, at: nat) {
    from <= at && EqualsAt(base, lines, at, Exact) && NoMatch(base, lines, from, at, Exact)
  }

  /** Where a hunk goes: the steps its headers take, and the line its old side stands at. */
  datatype Target = Target(steps: seq<Match>, at: nat)

  predicate Named(headers: seq<string>) {
    forall k | 0 <= k < |headers| :: Strip(headers[k]) != ""
  }

  /** With an end-of-file marker: the lines stand exactly at `at`, which is the end of the file, or
      first from line `from` on when they do not stand at the end. */
  predicate EndsAt(search: seq<string>, lines: seq<string>, from: nat, at: nat) {
    && EqualsAt(search, lines, at, Exact)
    && (at + |lines| == |search|
        || (lines != [] && !StandsAtEnd(search, lines, Both)
            && StandsFirst(search, lines, if from < |search| then from else |search|, at)))
  }

  /** The headers lead from `from` to `lead`, and from there on the hunk's old side first stands at
      its place, or it stands where its end-of-file marker sends it. */
  ghost predicate Hits(base: seq<string>, block: Block, target: Target, from: nat, lead: nat) {
    && block.hunk != [] && Named(block.headers)
    && HeadersLand(block.headers, false, base, from, |block.headers| > 1, target.steps)
    && lead == Arrival(from, target.steps).index && from <= target.at
    && if block.eof then forall search | WithoutFinalBlank(base, search) :: EndsAt(search, OldSide(block.hunk), lead, target.at)
       else StandsFirst(base, OldSide(block.hunk), lead, target.at)
  }

  /** Each hunk stands where its headers lead, after the previous one. */
  ghost predicate Located(base: seq<string>, blocks: seq<Block>, targets: seq<Target>, from: nat)
    requires |blocks| == |targets|
  {
    if blocks == [] then from <= |base|
    else
      && Hits(base, blocks[0], targets[0], from, Arrival(from, targets[0].steps).index)
      && Located(base, blocks[1..], targets[1..], targets[0].at + |OldSide(blocks[0].hunk)|)
  }

  lemma {:induction false} StepsGoDown(headers: seq<string>, later: bool, base: seq<string>, from: nat, must: bool, steps: seq<Match>)
    requires HeadersLand(headers, later, base, from, must, steps)
    ensures from <= Arrival(from, steps).index <= |base|
    decreases |headers|
  {
    hide IsLine, StandsIn;
    if headers != [] { StepsGoDown(headers[1..], true, base, steps[0].index, must, steps[1..]); }
  }

  /** The edited file from line `from` on. */
  ghost function Edited(base: seq<string>, blocks: seq<Block>, targets: seq<Target>, from: nat): seq<string>
    requires |blocks| == |targets| && Located(base, blocks, targets, from)
  {
    if blocks == [] then base[from..]
    else
      HitStands(base, blocks[0], targets[0], from, Arrival(from, targets[0].steps).index);
      base[from..targets[0].at] + NewSide(blocks[0].hunk)
      + Edited(base, blocks[1..], targets[1..], targets[0].at + |OldSide(blocks[0].hunk)|)
  }

  /** `n` lines are the whole file, but for the empty element that a final newline leaves behind. */
  predicate IsWhole(base: seq<string>, n: nat) {
    n == |base| || (n + 1 == |base| && base[n] == "")
  }

  /** What a block costs: 1 for each header that stands in the file only up to white space, and
      10000 for an end-of-file marker on a hunk that is not at the end. */
  function Cost(base: seq<string>, block: Block, target: Target, from: nat): nat {
    Arrival(from, target.steps).fuzz
    + if block.eof && !IsWhole(base, target.at + |OldSide(block.hunk)|) then 10000 else 0
  }

  function TotalCost(base: seq<string>, blocks: seq<Block>, targets: seq<Target>, from: nat): nat
    requires |blocks| == |targets|
    decreases |blocks|
  {
    if blocks == [] then 0
    else
      Cost(base, blocks[0], targets[0], from)
      + TotalCost(base, blocks[1..], targets[1..], targets[0].at + |OldSide(blocks[0].hunk)|)
  }

  // ---------------------------------------------------------------- reading a printed hunk

  /** The new side read so far. */
  function NewRead(s: Reader): seq<string>
    requires |s.dels| <= |s.context|
  {
    Image(s.context, s.chunks, |s.context| - |s.dels|) + s.inss
  }

  lemma FlushKeepsNewRead(s: Reader)
    requires ReaderInv(s)
    ensures NewRead(s.Flush()) == NewRead(s)
  {
    var f := s.Flush();
    if f != s {
      assert f.chunks[..|f.chunks| - 1] == s.chunks;
    }
  }

  lemma KeepExtendsNewRead(f: Reader, line: string)
    requires ReaderInv(f) && f.dels == [] && f.inss == []
    ensures Image(f.context + [line], f.chunks, |f.context| + 1) == NewRead(f) + [line]
  {
    assert NewRead(f) == Image(f.context, f.chunks, |f.context|);
    hide DeletesContext, LiesAt, NewRead, Image, Placed, Slice;
    PlacedWiden(f.chunks, 0, |f.context|, |f.context| + 1);
    ImagePrefix(f.context, f.context + [line], f.chunks, |f.context|);
    ImageExtend(f.context + [line], f.chunks, |f.context|, |f.context| + 1);
  }

  lemma ReadPrintedEdit(s: Reader, e: Edit)
    requires ReaderInv(s)
    ensures ReadLine(s, PrintEdit(e)).Ok?
    ensures var s' := ReadLine(s, PrintEdit(e)).value;
            && ReaderInv(s')
            && s'.context == s.context + Before(e)
            && NewRead(s') == NewRead(s) + After(e)
  {
    hide DeletesContext, Image, Placed;
    var raw := PrintEdit(e);
    assert raw[1..] == e.text;
    ReadLineKeepsInv(s, raw);
    match e
    case Add(t) =>
      assert NewRead(ReadLine(s, raw).value) == NewRead(s) + [t];
    case Delete(t) =>
      ImagePrefix(s.context, s.context + [t], s.chunks, |s.context| - |s.dels|);
    case Keep(t) =>
      FlushKeepsInv(s);
      FlushKeepsNewRead(s);
      KeepExtendsNewRead(s.Flush(), t);
  }

  lemma PrintedEditIsNoMarker(e: Edit)
    ensures !StopsSection(PrintEdit(e)) && !StartsWith(PrintEdit(e), "***")
    ensures AnchorText(PrintEdit(e)).None?
    ensures !StartsWithAny(PrintEdit(e), END_SECTION_MARKERS)
  {
    var line := PrintEdit(e);
    assert line[0] != '*' && line[0] != '@';
    forall k | 0 <= k < |END_SECTION_MARKERS|
      ensures !StartsWith(line, END_SECTION_MARKERS[k])
    {
      assert END_SECTION_MARKERS[k][0] == '*';
    }
  }

  lemma PrintedHunkCons(lines: seq<string>, index: nat, hunk: Hunk)
    requires hunk != [] && LiesAt(lines, PrintHunk(hunk), index)
    ensures lines[index] == PrintEdit(hunk[0]) && LiesAt(lines, PrintHunk(hunk[1..]), index + 1)
  {
    hide PrintEdit;
    assert lines[index + 0] == PrintHunk(hunk)[0];
    forall k | 0 <= k < |hunk| - 1
      ensures lines[index + 1 + k] == PrintHunk(hunk[1..])[k]
    {
      assert lines[index + (k + 1)] == PrintHunk(hunk)[k + 1];
    }
  }

  lemma {:induction false} ReadPrintedHunk(lines: seq<string>, index: nat, hunk: Hunk, s: Reader)
    requires ReaderInv(s) && index + |hunk| <= |lines| && LiesAt(lines, PrintHunk(hunk), index)
    requires index + |hunk| == |lines| || StopsSection(lines[index + |hunk|])
    ensures ReadLines(lines, index, s).Ok?
    ensures var (s', end) := ReadLines(lines, index, s).value;
            && end == index + |hunk|
            && ReaderInv(s')
            && s'.context == s.context + OldSide(hunk)
            && NewRead(s') == NewRead(s) + NewSide(hunk)
    decreases |hunk|
  {
    hide DeletesContext, Placed, LiesAt, NewRead, ReadLine, StopsSection, PrintHunk, PrintEdit;
    if hunk != [] {
      var e, rest := hunk[0], hunk[1..];
      PrintedHunkCons(lines, index, hunk);
      PrintedEditIsNoMarker(e);
      ReadPrintedEdit(s, e);
      var s' := ReadLine(s, PrintEdit(e)).value;
      ReadPrintedHunk(lines, index + 1, rest, s');
      assert OldSide(hunk) == Before(e) + OldSide(rest) && NewSide(hunk) == After(e) + NewSide(rest);
      hide OldSide, NewSide, Before, After;
      Regroup(s.context, Before(e), OldSide(rest));
      Regroup(NewRead(s), After(e), NewSide(rest));
    }
  }

  lemma CloseReads(lines: seq<string>, start: nat, s: Reader, end: nat)
    requires ReaderInv(s) && start < end < |lines|
    ensures var (r, eof) := (CloseSection(lines, start, s, end), lines[end] == END_FILE);
            && r.Ok? && r.value.context == s.context && r.value.eof == eof && r.value.end == end + (if eof then 1 else 0)
            && Placed(r.value.chunks, 0, |s.context|)
            && Image(s.context, r.value.chunks, |s.context|) == NewRead(s)
  {
    FlushKeepsInv(s);
    FlushKeepsNewRead(s);
    hide DeletesContext, Placed, Image;
  }

  lemma EmptyReader()
    ensures ReaderInv(EMPTY_READER) && NewRead(EMPTY_READER) == [] && EMPTY_READER.context == []
  {}

  lemma ReadFromNothing(lines: seq<string>, index: nat, hunk: Hunk) returns (s: Reader, end: nat)
    requires index + |hunk| <= |lines| && LiesAt(lines, PrintHunk(hunk), index)
    requires index + |hunk| == |lines| || StopsSection(lines[index + |hunk|])
    ensures ReadLines(lines, index, EMPTY_READER) == Ok((s, end)) && end == index + |hunk|
    ensures ReaderInv(s) && s.context == OldSide(hunk) && NewRead(s) == NewSide(hunk)
  {
    hide ReaderInv, NewRead, ReadLines, NewSide, OldSide, StopsSection, LiesAt, PrintHunk, EMPTY_READER;
    EmptyReader();
    ReadPrintedHunk(lines, index, hunk, EMPTY_READER);
    var read := ReadLines(lines, index, EMPTY_READER).value;
    s, end := read.0, read.1;
    assert [] + OldSide(hunk) == OldSide(hunk) && [] + NewSide(hunk) == NewSide(hunk);
  }

  /** The section that starts here ends at `end`, with this context, and its chunks make the image. */
  predicate ReadsAs(lines: seq<string>, start: nat, end: nat, context: seq<string>, image: seq<string>)
    requires start <= |lines|
  {
    && end < |lines| && ReadSection(lines, start).Ok?
    && var (r, eof) := (ReadSection(lines, start).value, lines[end] == END_FILE);
       && r.context == context && r.eof == eof && r.end == end + (if eof then 1 else 0)
       && Placed(r.chunks, 0, |context|) && Image(context, r.chunks, |context|) == image
  }

  lemma SectionFromStart(lines: seq<string>, start: nat, s: Reader, end: nat)
    requires start < end < |lines| && ReadLines(lines, start, EMPTY_READER) == Ok((s, end)) && ReaderInv(s)
    ensures ReadsAs(lines, start, end, s.context, NewRead(s))
  {
    hide NewRead, ReadLines, Placed, Image, ReadSection, CloseSection, EMPTY_READER, END_FILE;
    SectionIsClosed(lines, start, s, end);
    CloseReads(lines, start, s, end);
  }

  /** The section read from a printed hunk: its context is the old side, its image the new side. */
  lemma ReadPrintedSection(lines: seq<string>, index: nat, hunk: Hunk)
    requires hunk != [] && index + |hunk| < |lines| && LiesAt(lines, PrintHunk(hunk), index)
    requires StopsSection(lines[index + |hunk|])
    ensures ReadsAs(lines, index, index + |hunk|, OldSide(hunk), NewSide(hunk))
  {
    hide ReaderInv, NewRead, ReadLines, NewSide, OldSide, StopsSection, ReadsAs, LiesAt, PrintHunk, EMPTY_READER;
    var s, end := ReadFromNothing(lines, index, hunk);
    SectionFromStart(lines, index, s, end);
  }

  lemma SectionIsClosed(lines: seq<string>, start: nat, s: Reader, end: nat)
    requires start <= end <= |lines| && ReadLines(lines, start, EMPTY_READER) == Ok((s, end)) && s.Valid()
    ensures ReadSection(lines, start) == CloseSection(lines, start, s, end)
  {
    hide ReadLines, CloseSection;
  }

  // ---------------------------------------------------------------- the whole file

  lemma LocatedIsFound(base: seq<string>, hunk: Hunk, at: nat, from: nat)
    requires StandsFirst(base, OldSide(hunk), from, at)
    ensures from <= at
    ensures FindContext(base, OldSide(hunk), from, false) == Some(Match(at, 0))
    ensures LiesAt(base, OldSide(hunk), at)
  {
    var prior := OldSide(hunk);
    assert LiesAt(base, prior, at) by {
      assert forall k | 0 <= k < |prior| :: Norm(Exact, base[at + k]) == Norm(Exact, prior[k]);
    }
    if prior == [] {
      assert EqualsAt(base, prior, from, Exact);
    } else {
      FirstMatchIsLeast(base, prior, from, |base|, Exact);
    }
  }

  lemma EndIsFound(base: seq<string>, hunk: Hunk, at: nat, from: nat)
    requires from <= |base| && forall search | WithoutFinalBlank(base, search) :: EndsAt(search, OldSide(hunk), from, at)
    ensures FindContext(base, OldSide(hunk), from, true)
            == Some(Match(at, if IsWhole(base, at + |OldSide(hunk)|) then 0 else 10000))
    ensures LiesAt(base, OldSide(hunk), at)
  {
    hide FindContext, EqualsAt, NoMatch;
    var prior, search := OldSide(hunk), if base != [] && base[|base| - 1] == "" then base[..|base| - 1] else base;
    assert WithoutFinalBlank(base, search);
    EqualsAtLies(search, prior, at);
    ExactImpliesAll(search, prior, at, Exact);
    assert IsWhole(base, at + |prior|) <==> at + |prior| == |search|;
    var found := Some(Match(at, if at + |prior| == |search| then 0 else 10000));
    if prior != [] && at + |prior| == |search| {
      assert StandsAtEnd(search, prior, Exact) && StandsAtEnd(search, prior, Both);
    } else if prior != [] {
      var start := if from < |search| then from else |search|;
      assert BestAt(search, prior, start, Match(at, 0), Exact);
    }
    EofContextLands(base, search, prior, from, found);
  }

  lemma EqualsAtLies(search: seq<string>, lines: seq<string>, at: nat)
    requires EqualsAt(search, lines, at, Exact)
    ensures LiesAt(search, lines, at)
  {
    assert forall k | 0 <= k < |lines| :: Norm(Exact, search[at + k]) == Norm(Exact, lines[k]);
  }

  /** The steps headers can take are the ones the parser takes. */
  lemma {:induction false} StepsAreTaken(headers: seq<string>, k: nat, base: seq<string>, from: nat, fuzz: nat, must: bool, steps: seq<Match>)
    requires k <= |headers| && HeadersLand(headers[k..], k > 0, base, from, must, steps)
    ensures AdvanceAll(headers, k, base, from, fuzz, must)
            == Ok(Match(Arrival(from, steps).index, fuzz + Arrival(from, steps).fuzz))
    decreases |headers| - k
  {
    hide HeaderLands, FindAnchor;
    if k < |headers| {
      assert headers[k..][0] == headers[k] && headers[k..][1..] == headers[k + 1..];
      OneStep(headers[k], base, from, k > 0, must, steps[0]);
      StepsAreTaken(headers, k + 1, base, steps[0].index, fuzz + steps[0].fuzz, must, steps[1..]);
    }
  }

  lemma OneStep(header: string, base: seq<string>, from: nat, later: bool, must: bool, m: Match)
    requires from <= |base| && StepLands(header, base, from, later, must, m)
    ensures AdvanceCursor(header, base, from, must, later) == Ok(m)
  {
    hide FindAnchor, HeaderLands;
    AnchorLands(header, base, from, later, Some(m));
    AnchorLands(header, base, from, later, None);
  }

  lemma HeaderLineReads(header: string)
    ensures AnchorText("@@ " + header) == Some(header)
  {
    assert ("@@ " + header)[3..] == header;
  }

  lemma {:induction false} HeadersAreRead(lines: seq<string>, index: nat, headers: seq<string>, k: nat)
    requires headers != [] && k <= |headers| && Named(headers) && index + |headers| < |lines|
    requires LiesAt(lines, Marks(headers, false), index)
    requires AnchorText(lines[index + |headers|]).None?
    ensures ReadAnchorsFrom(lines, index + k, headers[..k], k) == Anchors(headers, |headers|, index + |headers|)
    decreases |headers| - k
  {
    hide AnchorText, Strip;
    if k == |headers| {
      assert headers[..k] == headers;
    } else {
      assert lines[index + k] == Marks(headers, false)[k];
      HeaderLineReads(headers[k]);
      assert headers[..k] + [headers[k]] == headers[..k + 1];
      HeadersAreRead(lines, index, headers, k + 1);
    }
  }

  /** The marks in front of a hunk are read as its headers. */
  lemma MarksAreRead(lines: seq<string>, index: nat, headers: seq<string>, first: bool)
    requires Named(headers) && LiesAt(lines, Marks(headers, first), index) && index + |Marks(headers, first)| < |lines|
    requires AnchorText(lines[index + |Marks(headers, first)|]).None?
    ensures ReadAnchorsFrom(lines, index, [], 0)
            == Anchors(headers, |Marks(headers, first)|, index + |Marks(headers, first)|)
    ensures Marks(headers, first) != [] ==> !StartsWithAny(lines[index], END_SECTION_MARKERS)
  {
    if headers != [] {
      assert lines[index + 0] == Marks(headers, first)[0];
      assert headers[..0] == [];
      HeadersAreRead(lines, index, headers, 0);
      MarkIsNoMarker(lines[index]);
    } else if !first {
      assert lines[index + 0] == Marks(headers, first)[0];
      BareMarkerIsAnAnchor(lines, index);
      MarkIsNoMarker(lines[index]);
    }
  }

  lemma MarkIsNoMarker(line: string)
    requires StartsWith(line, "@@")
    ensures !StartsWithAny(line, END_SECTION_MARKERS)
  {
    assert line[0] == '@';
    forall k | 0 <= k < |END_SECTION_MARKERS|
      ensures !StartsWith(line, END_SECTION_MARKERS[k])
    {
      assert END_SECTION_MARKERS[k][0] == '*';
    }
  }

  lemma BareMarkerIsAnAnchor(lines: seq<string>, index: nat)
    requires index + 1 < |lines| && lines[index] == "@@" && AnchorText(lines[index + 1]).None?
    ensures ReadAnchorsFrom(lines, index, [], 0) == Anchors([], 1, index + 1)
  {
    assert AnchorText(lines[index]) == Some("") && Strip("") == "";
    assert ReadAnchorsFrom(lines, index + 1, [], 1) == Anchors([], 1, index + 1);
  }

  /** A line of the diff that ends a hunk: its end-of-file marker, the next hunk's mark, or the end
      of the patch. */
  predicate EndsHunk(line: string, eof: bool) {
    if eof then line == END_FILE else StartsWith(line, "@@") || line == END_PATCH
  }

  lemma HunkEndStopsSection(line: string, eof: bool)
    requires EndsHunk(line, eof)
    ensures StopsSection(line) && (line == END_FILE <==> eof)
  {
    if eof {
      assert StartsWith(END_FILE, END_SECTION_MARKERS[4]);
    } else if line == END_PATCH {
      MarkersStopSections();
    } else {
      assert line[0] == '@' && END_FILE[0] == '*';
    }
  }

  lemma MarkersStopSections()
    ensures StopsSection(END_PATCH) && END_PATCH != END_FILE && StartsWithAny(END_PATCH, END_SECTION_MARKERS)
  {
    assert StartsWith(END_PATCH, END_SECTION_MARKERS[0]);
    assert |END_PATCH| != |END_FILE|;
  }

  /** One round of the parser over a printed hunk. */
  lemma RoundOverHunk(lines: seq<string>, index: nat, base: seq<string>, block: Block, target: Target, from: nat, lead: nat, first: bool)
    requires Hits(base, block, target, from, lead)
    requires first ==> from == 0
    requires var start := index + |Marks(block.headers, first)|;
             && start + |block.hunk| < |lines|
             && LiesAt(lines, Marks(block.headers, first), index) && LiesAt(lines, PrintHunk(block.hunk), start)
             && EndsHunk(lines[start + |block.hunk|], block.eof)
    ensures from <= |base| && !Done(lines, index, END_SECTION_MARKERS)
    ensures ParseRound(lines, index, base, from).Ok?
    ensures var (r, prior) := (ParseRound(lines, index, base, from).value, OldSide(block.hunk));
            && r.index == index + |Marks(block.headers, first)| + |Body(block)|
            && r.cursor == target.at + |prior| && r.at == target.at
            && r.fuzz == Cost(base, block, target, from)
            && r.section.context == prior
            && Placed(r.section.chunks, 0, |prior|)
            && Image(prior, r.section.chunks, |prior|) == NewSide(block.hunk)
  {
    hide StopsSection, StartsWithAny, StandsFirst, FindContext, ReadSection, Image, Placed, OldSide, NewSide, LiesAt, EndsAt,
         PrintHunk, PrintEdit, HeadersLand, Arrival, AdvanceAll, ReadAnchorsFrom, Named, AnchorText, Marks, EndsHunk, IsWhole, END_FILE;
    var headers, marks := block.headers, Marks(block.headers, first);
    var start := index + |marks|;
    StepsGoDown(headers, false, base, from, |headers| > 1, target.steps);
    PrintedHunkCons(lines, start, block.hunk);
    PrintedEditIsNoMarker(block.hunk[0]);
    if block.eof { EndIsFound(base, block.hunk, target.at, lead); } else { LocatedIsFound(base, block.hunk, target.at, lead); }
    HunkEndStopsSection(lines[start + |block.hunk|], block.eof);
    ReadPrintedSection(lines, start, block.hunk);
    MarksAreRead(lines, index, headers, first);
    assert headers[0..] == headers;
    StepsAreTaken(headers, 0, base, from, 0, |headers| > 1, target.steps);
    if headers == [] { NoHeadersNoMove(base, from, |marks| > 1); }
  }

  lemma NoHeadersNoMove(base: seq<string>, from: nat, must: bool)
    requires from <= |base|
    ensures AdvanceAll([], 0, base, from, 0, must) == AdvanceAll([], 0, base, from, 0, false)
  {}

  /** How the printed hunks lie in the diff's lines. */
  lemma PrintedLayout(lines: seq<string>, index: nat, blocks: seq<Block>, first: bool)
    requires blocks != [] && LiesAt(lines, Print(blocks, first) + [END_PATCH], index)
    requires forall k | 0 <= k < |blocks| :: blocks[k].hunk != []
    ensures var start := index + |Marks(blocks[0].headers, first)|;
            && start + |blocks[0].hunk| < |lines|
            && LiesAt(lines, Marks(blocks[0].headers, first), index)
            && LiesAt(lines, PrintHunk(blocks[0].hunk), start)
            && LiesAt(lines, Print(blocks[1..], false) + [END_PATCH], start + |Body(blocks[0])|)
            && EndsHunk(lines[start + |blocks[0].hunk|], blocks[0].eof)
  {
    hide Print, Body, Marks, EndsHunk, LiesAt, END_PATCH;
    var marks, body, rest := Marks(blocks[0].headers, first), Body(blocks[0]), Print(blocks[1..], false);
    PrintUnfolds(blocks, first);
    NextMark(blocks[1..]);
    Regroup(marks + body, rest, [END_PATCH]);
    ThreeLie(lines, marks, body, rest + [END_PATCH], index);
    FirstLineLies(lines, rest + [END_PATCH], index + |marks| + |body|);
    BodyLies(lines, blocks[0], index + |marks|);
  }

  lemma BodyLies(lines: seq<string>, block: Block, start: nat)
    requires LiesAt(lines, Body(block), start)
    ensures LiesAt(lines, PrintHunk(block.hunk), start)
    ensures block.eof ==> start + |block.hunk| < |lines| && EndsHunk(lines[start + |block.hunk|], true)
  {
    hide PrintHunk, LiesAt;
    LiesAtSplit(lines, PrintHunk(block.hunk), if block.eof then [END_FILE] else [], start);
    if block.eof { FirstLineLies(lines, [END_FILE], start + |block.hunk|); }
  }

  lemma PrintUnfolds(blocks: seq<Block>, first: bool)
    requires blocks != []
    ensures Print(blocks, first) == Marks(blocks[0].headers, first) + Body(blocks[0]) + Print(blocks[1..], false)
  {}

  lemma ThreeLie(lines: seq<string>, a: seq<string>, b: seq<string>, c: seq<string>, at: nat)
    requires LiesAt(lines, a + b + c, at)
    ensures LiesAt(lines, a, at) && LiesAt(lines, b, at + |a|) && LiesAt(lines, c, at + |a| + |b|)
  {
    hide LiesAt;
    LiesAtSplit(lines, a + b, c, at);
    LiesAtSplit(lines, a, b, at);
  }

  lemma FirstLineLies(lines: seq<string>, part: seq<string>, at: nat)
    requires LiesAt(lines, part, at) && part != []
    ensures at < |lines| && lines[at] == part[0]
  {
    assert lines[at + 0] == part[0];
  }

  lemma NextMark(blocks: seq<Block>)
    ensures EndsHunk((Print(blocks, false) + [END_PATCH])[0], false)
  {
    if blocks != [] {
      var marks := Marks(blocks[0].headers, false);
      assert marks[0][..2] == "@@";
      assert Print(blocks, false)[0] == marks[0];
    }
  }

  /** The image of the file up to the end of a hunk, once the hunk's chunks are added. */
  lemma AfterHunk(base: seq<string>, acc: seq<Chunk<string>>, from: nat, hunk: Hunk, chunks: seq<Chunk<string>>, at: nat)
    requires Placed(acc, 0, from) && from <= at && LiesAt(base, OldSide(hunk), at)
    requires Placed(chunks, 0, |OldSide(hunk)|)
    requires Image(OldSide(hunk), chunks, |OldSide(hunk)|) == NewSide(hunk)
    ensures at + |OldSide(hunk)| <= |base|
    ensures Placed(acc + Shift(chunks, at), 0, at + |OldSide(hunk)|)
    ensures Image(base, acc + Shift(chunks, at), at + |OldSide(hunk)|) == Image(base, acc, from) + base[from..at] + NewSide(hunk)
  {
    hide OldSide, NewSide, Placed, Image, Shift;
    assert at + |OldSide(hunk)| <= |base|;
    hide LiesAt;
    PlacedConcat(acc, chunks, 0, from, at, |OldSide(hunk)|);
    ImageShifted(base, acc, from, OldSide(hunk), chunks, at, |OldSide(hunk)|);
    ImageExtend(base, acc, from, at);
  }

  lemma PatchEnds(lines: seq<string>, index: nat, first: bool)
    requires LiesAt(lines, Print([], first) + [END_PATCH], index)
    ensures index < |lines| && lines[index] == END_PATCH && Done(lines, index, END_SECTION_MARKERS)
  {
    MarkersStopSections();
    assert lines[index + 0] == (Print([], first) + [END_PATCH])[0];
  }

  /** What parsing the printed hunks from `index` on gives. */
  ghost predicate ParsesAs(lines: seq<string>, index: nat, base: seq<string>, blocks: seq<Block>, targets: seq<Target>,
                           from: nat, acc: seq<Chunk<string>>, fuzz: nat)
    requires |blocks| == |targets| && index <= |lines| && from <= |base| && Located(base, blocks, targets, from)
  {
    var r := ParseFrom(lines, index, base, from, acc, fuzz);
    && r.Ok? && r.value.fuzz == fuzz + TotalCost(base, blocks, targets, from)
    && Placed(r.value.chunks, 0, |base|)
    && Image(base, r.value.chunks, |base|) == Image(base, acc, from) + Edited(base, blocks, targets, from)
  }

  lemma {:induction false} LocatedHaveHunks(base: seq<string>, blocks: seq<Block>, targets: seq<Target>, from: nat)
    requires |blocks| == |targets| && Located(base, blocks, targets, from)
    ensures forall k | 0 <= k < |blocks| :: blocks[k].hunk != []
    decreases |blocks|
  {
    hide Named, HeadersLand, StandsFirst;
    if blocks != [] {
      LocatedHaveHunks(base, blocks[1..], targets[1..], targets[0].at + |OldSide(blocks[0].hunk)|);
      forall k | 0 <= k < |blocks|
        ensures blocks[k].hunk != []
      {
        if k > 0 { assert blocks[k] == blocks[1..][k - 1]; }
      }
    }
  }

  lemma {:induction false} ParsePrinted(lines: seq<string>, index: nat, base: seq<string>, blocks: seq<Block>, targets: seq<Target>,
                                        from: nat, acc: seq<Chunk<string>>, fuzz: nat, first: bool)
    requires |blocks| == |targets| && index <= |lines| && from <= |base|
    requires LiesAt(lines, Print(blocks, first) + [END_PATCH], index)
    requires Located(base, blocks, targets, from) && (first ==> from == 0)
    requires Placed(acc, 0, from)
    ensures ParsesAs(lines, index, base, blocks, targets, from, acc, fuzz)
    decreases |blocks|
  {
    hide Hits, StopsSection, StartsWithAny, Placed, Image, ParseRound, OldSide, NewSide, PrintHunk, Body, Shift, LiesAt, Slice,
         Print, Marks, EndsHunk, Done, Arrival, Cost;
    if blocks == [] {
      PatchEnds(lines, index, first);
      PlacedWiden(acc, 0, from, |base|);
      ImageExtend(base, acc, from, |base|);
    } else {
      var block, target, hunk := blocks[0], targets[0], blocks[0].hunk;
      var lead := Arrival(from, target.steps).index;
      LocatedHaveHunks(base, blocks, targets, from);
      PrintedLayout(lines, index, blocks, first);
      RoundOverHunk(lines, index, base, block, target, from, lead, first);
      HitStands(base, block, target, from, lead);
      var r := ParseRound(lines, index, base, from).value;
      var chunks := acc + Shift(r.section.chunks, target.at);
      AfterHunk(base, acc, from, hunk, r.section.chunks, target.at);
      ParsePrinted(lines, r.index, base, blocks[1..], targets[1..], r.cursor, chunks, fuzz + r.fuzz, false);
      var head, gap, tail := Image(base, acc, from), base[from..target.at], Edited(base, blocks[1..], targets[1..], r.cursor);
      Regroup(head, gap, NewSide(hunk));
      Regroup(head, gap + NewSide(hunk), tail);
    }
  }

  lemma HitStands(base: seq<string>, block: Block, target: Target, from: nat, lead: nat)
    requires Hits(base, block, target, from, lead)
    ensures from <= target.at && LiesAt(base, OldSide(block.hunk), target.at)
  {
    hide HeadersLand, Arrival, StandsFirst, EndsAt, OldSide, LiesAt;
    StepsGoDown(block.headers, false, base, from, |block.headers| > 1, target.steps);
    if block.eof { EndIsFound(base, block.hunk, target.at, lead); } else { LocatedIsFound(base, block.hunk, target.at, lead); }
  }

  /** The round trip: printed hunks, with any stacked headers, make exactly the edit they print when
      each hunk first stands, from where its headers lead on, at its place, or where its end-of-file
      marker sends it; the fuzz is what the headers and the markers cost. */
  lemma PrintedEditApplies(base: seq<string>, blocks: seq<Block>, targets: seq<Target>)
    requires |blocks| == |targets| && Located(base, blocks, targets, 0)
    ensures Update(Print(blocks, true), base) == Ok(Edited(base, blocks, targets, 0))
    ensures ParseUpdate(Print(blocks, true), base).value.fuzz == TotalCost(base, blocks, targets, 0)
  {
    hide Located, Edited, ParseFrom, Print, TotalCost;
    var lines := Print(blocks, true) + [END_PATCH];
    assert LiesAt(lines, lines, 0);
    ParsePrinted(lines, 0, base, blocks, targets, 0, [], 0, true);
    var p := ParseFrom(lines, 0, base, 0, [], 0).value;
    PlacedNoError(p.chunks, |base|, 0, 0);
    assert [] + Edited(base, blocks, targets, 0) == Edited(base, blocks, targets, 0);
  }

  /** A single hunk whose old side is the whole file needs no condition: every edit of every
      file can be written as a V4A diff that makes it. */
  lemma FullContextEditApplies(script: Hunk)
    requires script != []
    ensures Update(Print([Block([], script, false)], true), OldSide(script)) == Ok(NewSide(script))
  {
    hide Update, Print, NewSide, Located, Edited;
    var base, block, target := OldSide(script), Block([], script, false), Target([], 0);
    WholeFileIsLocated(script);
    PrintedEditApplies(base, [block], [target]);
  }

  lemma WholeFileIsLocated(script: Hunk)
    requires script != []
    ensures Located(OldSide(script), [Block([], script, false)], [Target([], 0)], 0)
    ensures Edited(OldSide(script), [Block([], script, false)], [Target([], 0)], 0) == NewSide(script)
  {
    var base, block, target := OldSide(script), Block([], script, false), Target([], 0);
    assert StandsFirst(base, base, 0, 0);
    assert Hits(base, block, target, 0, 0);
    hide OldSide, NewSide, Hits;
    assert [block][1..] == [] && [target][1..] == [];
    assert Edited(base, [], [target][1..], |base|) == [];
    assert Edited(base, [block], [target], 0) == base[0..0] + NewSide(script) + [] == NewSide(script);
  }
}
