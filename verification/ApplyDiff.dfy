/** The V4A patch engine on lines: parser, fuzzy context search and chunk applier.

    `ApplyDiffLoops` runs the loops of the Python original against these functions;
    `ApplyDiffTheorems` and `ApplyDiffRoundTrip` prove what they promise. */
module ApplyDiff {
  import opened PyText
  import opened Results
  import opened Chunks

  datatype Parsed = Parsed(chunks: seq<Chunk<string>>, fuzz: nat)

  datatype Section = Section(context: seq<string>, chunks: seq<Chunk<string>>, end: nat, eof: bool)

  datatype DiffError =
    | InvalidLine(line: string)
    | InvalidAnchor(cursor: nat, anchor: string)
    | InvalidContext(cursor: nat, context: seq<string>)
    | InvalidEofContext(cursor: nat, context: seq<string>)
    | NothingInSection(index: nat)
    | InvalidAddLine(line: string)
    | ChunkPastEnd(index: nat)
    | OverlappingChunk(index: nat)

  const END_PATCH := "*** End Patch"
  const END_FILE := "*** End of File"
  const SECTION_TERMINATORS := [END_PATCH, "*** Update File:", "*** Delete File:", "*** Add File:"]
  const END_SECTION_MARKERS := SECTION_TERMINATORS + [END_FILE]

  predicate StartsWithAny(line: string, prefixes: seq<string>) {
    exists k | 0 <= k < |prefixes| :: StartsWith(line, prefixes[k])
  }

  predicate Done(lines: seq<string>, index: nat, prefixes: seq<string>) {
    index >= |lines| || StartsWithAny(lines[index], prefixes)
  }

  // ---------------------------------------------------------------- anchors

  datatype Anchors = Anchors(texts: seq<string>, count: nat, index: nat)

  /** The text of an `@@` header line: empty for a bare marker, absent for any other line. */
  function AnchorText(line: string): Option<string> {
    if StartsWith(line, "@@ ") then Some(line[3..])
    else if line == "@@" then Some("")
    else None
  }

  /** Stacked headers from `index` on; blank ones count but do not narrow the search. */
  function ReadAnchorsFrom(lines: seq<string>, index: nat, texts: seq<string>, count: nat): (r: Anchors)
    requires index <= |lines|
    ensures index <= r.index <= |lines|
    decreases |lines| - index
  {
    if index == |lines| || AnchorText(lines[index]).None? then Anchors(texts, count, index)
    else
      var text := AnchorText(lines[index]).value;
      ReadAnchorsFrom(lines, index + 1, if Strip(text) == "" then texts else texts + [text], count + 1)
  }

  // ---------------------------------------------------------------- fuzzy search

  /** The three comparisons of the context search, strictest first. */
  datatype Tier = Exact | Trailing | Both

  function Norm(tier: Tier, s: string): string {
    match tier
    case Exact => s
    case Trailing => RStrip(s)
    case Both => Strip(s)
  }

  /** `target` lies in `source` at `start`, up to the tier's whitespace. */
  predicate EqualsAt(source: seq<string>, target: seq<string>, start: nat, tier: Tier) {
    && start + |target| <= |source|
    && forall k | 0 <= k < |target| :: Norm(tier, source[start + k]) == Norm(tier, target[k])
  }

  /** The least index in `[start, limit)` where `target` matches, if there is one. */
  function FirstMatch(source: seq<string>, target: seq<string>, start: nat, limit: nat, tier: Tier): (r: Option<nat>)
    ensures r.Some? ==> start <= r.value < limit && r.value + |target| <= |source|
    decreases limit - start
  {
    if start >= limit then None
    else if EqualsAt(source, target, start, tier) then Some(start)
    else FirstMatch(source, target, start + 1, limit, tier)
  }

  datatype Match = Match(index: nat, fuzz: nat)

  /** The context search: the strictest tier that matches anywhere at or after `start`. */
  function FindCore(lines: seq<string>, context: seq<string>, start: nat): (r: Option<Match>)
    requires start <= |lines|
    ensures r.Some? ==> start <= r.value.index && r.value.index + |context| <= |lines|
  {
    if context == [] then Some(Match(start, 0))
    else
      var exact := FirstMatch(lines, context, start, |lines|, Exact);
      if exact.Some? then Some(Match(exact.value, 0))
      else
        var trailing := FirstMatch(lines, context, start, |lines|, Trailing);
        if trailing.Some? then Some(Match(trailing.value, 1))
        else
          var both := FirstMatch(lines, context, start, |lines|, Both);
          if both.Some? then Some(Match(both.value, 100)) else None
  }

  /** A final empty element stands for the newline that ends the file, not for a line. */
  function EofSearchLines(lines: seq<string>): seq<string> {
    if lines != [] && lines[|lines| - 1] == "" then lines[..|lines| - 1] else lines
  }

  function FindContext(lines: seq<string>, context: seq<string>, start: nat, eof: bool): (r: Option<Match>)
    requires start <= |lines|
    ensures r.Some? ==> r.value.index + |context| <= |lines|
  {
    if !eof then FindCore(lines, context, start)
    else
      var search := EofSearchLines(lines);
      var endMatch := FindCore(search, context, if |search| > |context| then |search| - |context| else 0);
      if endMatch.Some? then endMatch
      else
        var fallback := FindCore(search, context, if start < |search| then start else |search|);
        if fallback.Some? then Some(Match(fallback.value.index, fallback.value.fuzz + 10000)) else None
  }

  /** Cursor and fuzz after one header, or nothing when no line matches it. */
  function FindAnchor(anchor: string, input: seq<string>, cursor: nat, force: bool): Option<Match> {
    if !force && FirstMatch(input, [anchor], 0, cursor, Exact).Some? then Some(Match(cursor, 0))
    else
      var exact := FirstMatch(input, [anchor], cursor, |input|, Exact);
      if exact.Some? then Some(Match(exact.value + 1, 0))
      else if !force && FirstMatch(input, [anchor], 0, cursor, Both).Some? then Some(Match(cursor, 0))
      else
        var both := FirstMatch(input, [anchor], cursor, |input|, Both);
        if both.Some? then Some(Match(both.value + 1, 1)) else None
  }

  function AdvanceCursor(anchor: string, input: seq<string>, cursor: nat, mustMatch: bool, force: bool): (r: Result<Match, DiffError>)
    requires cursor <= |input|
    ensures r.Ok? ==> cursor <= r.value.index <= |input|
  {
    match FindAnchor(anchor, input, cursor, force)
    case Some(found) => Ok(found)
    case None => if mustMatch then Err(InvalidAnchor(cursor, anchor)) else Ok(Match(cursor, 0))
  }

  /** All headers of one hunk, from header `k` on; only the first may match above the cursor. */
  function AdvanceAll(anchors: seq<string>, k: nat, input: seq<string>, cursor: nat, fuzz: nat,
                      mustMatch: bool): (r: Result<Match, DiffError>)
    requires k <= |anchors| && cursor <= |input|
    ensures r.Ok? ==> cursor <= r.value.index <= |input| && fuzz <= r.value.fuzz
    decreases |anchors| - k
  {
    if k == |anchors| then Ok(Match(cursor, fuzz))
    else
      match AdvanceCursor(anchors[k], input, cursor, mustMatch, k > 0)
      case Err(e) => Err(e)
      case Ok(m) => AdvanceAll(anchors, k + 1, input, m.index, fuzz + m.fuzz, mustMatch)
  }

  // ---------------------------------------------------------------- sections

  datatype Mode = KeepMode | AddMode | DeleteMode

  /** What the section reader holds between two lines. */
  datatype Reader = Reader(context: seq<string>, dels: seq<string>, inss: seq<string>, chunks: seq<Chunk<string>>, mode: Mode)
  {
    predicate Valid() {
      && |dels| <= |context|
      && (mode == KeepMode ==> dels == [] && inss == [])
    }

    /** The pending deletions and insertions become a chunk. */
    function Flush(): (r: Reader)
      requires |dels| <= |context|
    {
      if dels == [] && inss == [] then this
      else this.(chunks := chunks + [Chunk(|context| - |dels|, dels, inss)], dels := [], inss := [])
    }
  }

  const EMPTY_READER := Reader([], [], [], [], KeepMode)

  predicate StopsSection(raw: string) {
    StartsWith(raw, "@@") || StartsWithAny(raw, END_SECTION_MARKERS) || raw == "***"
  }

  /** One section line; an empty line is a kept blank line. */
  function ReadLine(s: Reader, raw: string): (r: Result<Reader, DiffError>)
    requires s.Valid()
    ensures r.Ok? ==> r.value.Valid()
  {
    var line := if raw == "" then " " else raw;
    var content := line[1..];
    if line[0] == '+' then Ok(s.(inss := s.inss + [content], mode := AddMode))
    else if line[0] == '-' then Ok(s.(dels := s.dels + [content], context := s.context + [content], mode := DeleteMode))
    else if line[0] == ' ' then
      var f := s.Flush();
      Ok(f.(context := f.context + [content], mode := KeepMode))
    else Err(InvalidLine(line))
  }

  function ReadLines(lines: seq<string>, index: nat, s: Reader): (r: Result<(Reader, nat), DiffError>)
    requires index <= |lines| && s.Valid()
    ensures r.Ok? ==> index <= r.value.1 <= |lines| && r.value.0.Valid()
    decreases |lines| - index
  {
    if index == |lines| || StopsSection(lines[index]) then Ok((s, index))
    else if StartsWith(lines[index], "***") then Err(InvalidLine(lines[index]))
    else
      match ReadLine(s, lines[index])
      case Err(e) => Err(e)
      case Ok(s') => ReadLines(lines, index + 1, s')
  }

  function CloseSection(lines: seq<string>, start: nat, s: Reader, index: nat): (r: Result<Section, DiffError>)
    requires start <= index <= |lines| && s.Valid()
    ensures r.Ok? ==> start < r.value.end <= |lines|
  {
    var f := s.Flush();
    if index < |lines| && lines[index] == END_FILE then Ok(Section(f.context, f.chunks, index + 1, true))
    else if index == start then Err(NothingInSection(index))
    else Ok(Section(f.context, f.chunks, index, false))
  }

  function ReadSection(lines: seq<string>, start: nat): (r: Result<Section, DiffError>)
    requires start <= |lines|
    ensures r.Ok? ==> start < r.value.end <= |lines|
  {
    match ReadLines(lines, start, EMPTY_READER)
    case Err(e) => Err(e)
    case Ok((s, index)) => CloseSection(lines, start, s, index)
  }

  // ---------------------------------------------------------------- the parser

  /** One round of the parser: its hunk was found at `at`, and reading goes on at `index`. */
  datatype Round = Round(index: nat, cursor: nat, fuzz: nat, at: nat, section: Section)

  function ParseRound(lines: seq<string>, index: nat, input: seq<string>, cursor: nat): (r: Result<Round, DiffError>)
    requires index <= |lines| && cursor <= |input|
    ensures r.Ok? ==> index < r.value.index <= |lines| && r.value.cursor <= |input|
  {
    var anchors := ReadAnchorsFrom(lines, index, [], 0);
    if anchors.count == 0 && cursor != 0 then Err(InvalidLine(if anchors.index < |lines| then lines[anchors.index] else ""))
    else
      match AdvanceAll(anchors.texts, 0, input, cursor, 0, anchors.count > 1)
      case Err(e) => Err(e)
      case Ok(advanced) =>
        match ReadSection(lines, anchors.index)
        case Err(e) => Err(e)
        case Ok(section) =>
          match FindContext(input, section.context, advanced.index, section.eof)
          case None =>
            Err(if section.eof then InvalidEofContext(advanced.index, section.context)
                else InvalidContext(advanced.index, section.context))
          case Some(found) =>
            Ok(Round(section.end, found.index + |section.context|, advanced.fuzz + found.fuzz, found.index, section))
  }

  function ParseFrom(lines: seq<string>, index: nat, input: seq<string>, cursor: nat, chunks: seq<Chunk<string>>,
                     fuzz: nat): Result<Parsed, DiffError>
    requires index <= |lines| && cursor <= |input|
    decreases |lines| - index
  {
    if Done(lines, index, END_SECTION_MARKERS) then Ok(Parsed(chunks, fuzz))
    else
      match ParseRound(lines, index, input, cursor)
      case Err(e) => Err(e)
      case Ok(r) =>
        ParseFrom(lines, r.index, input, r.cursor, chunks + Shift(r.section.chunks, r.at), fuzz + r.fuzz)
  }

  /** `_parse_update_diff`: the chunks a diff describes against the lines of a file. */
  function ParseUpdate(diff: seq<string>, input: seq<string>): Result<Parsed, DiffError> {
    ParseFrom(diff + [END_PATCH], 0, input, 0, [], 0)
  }

  // ---------------------------------------------------------------- the applier

  /** Why the applier stops at or after chunk `k`, if it does. */
  function ApplyError(chunks: seq<Chunk<string>>, length: nat, k: nat, cursor: nat): Option<DiffError>
    requires k <= |chunks|
    decreases |chunks| - k
  {
    if k == |chunks| then None
    else if chunks[k].origIndex > length then Some(ChunkPastEnd(chunks[k].origIndex))
    else if cursor > chunks[k].origIndex then Some(OverlappingChunk(chunks[k].origIndex))
    else ApplyError(chunks, length, k + 1, chunks[k].End())
  }

  function Apply(lines: seq<string>, chunks: seq<Chunk<string>>): Result<seq<string>, DiffError> {
    match ApplyError(chunks, |lines|, 0, 0)
    case Some(e) => Err(e)
    case None => Ok(Image(lines, chunks, |lines|))
  }

  /** A whole update on lines, as `apply_diff` runs it in its default mode. */
  function Update(diff: seq<string>, input: seq<string>): Result<seq<string>, DiffError> {
    match ParseUpdate(diff, input)
    case Err(e) => Err(e)
    case Ok(parsed) => Apply(input, parsed.chunks)
  }
}
