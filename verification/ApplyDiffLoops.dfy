/** The Python loops of the V4A patch engine, each proved equal to its function. */
module ApplyDiffLoops {
  import opened PyText
  import opened Results
  import opened Chunks
  import opened ApplyDiff

  /** `ParserState`: the diff's lines, the read position and the fuzz collected so far. */
  class ParserState {
    const lines: seq<string>
    var index: nat
    var fuzz: nat

    constructor (lines: seq<string>)
      ensures this.lines == lines && index == 0 && fuzz == 0
    {
      this.lines := lines;
      index, fuzz := 0, 0;
    }

    method ReadStr(prefix: string) returns (text: string)
      requires index <= |lines| && prefix != ""
      modifies this`index
      ensures old(index) < |lines| && StartsWith(lines[old(index)], prefix)
              ==> index == old(index) + 1 && text == lines[old(index)][|prefix|..]
      ensures !(old(index) < |lines| && StartsWith(lines[old(index)], prefix)) ==> index == old(index) && text == ""
    {
      if index >= |lines| { return ""; }
      var current := lines[index];
      if StartsWith(current, prefix) {
        index := index + 1;
        return current[|prefix|..];
      }
      return "";
    }

    method ReadAnchors() returns (anchors: seq<string>, count: nat)
      requires index <= |lines|
      modifies this`index
      ensures index <= |lines|
      ensures Anchors(anchors, count, index) == ReadAnchorsFrom(lines, old(index), [], 0)
    {
      hide Strip;
      anchors, count := [], 0;
      while true
        invariant index <= |lines|
        invariant ReadAnchorsFrom(lines, old(index), [], 0) == ReadAnchorsFrom(lines, index, anchors, count)
        decreases |lines| - index
      {
        var start := index;
        var anchor := ReadStr("@@ ");
        var consumed := index != start;
        if !consumed && index < |lines| && lines[index] == "@@" {
          index := index + 1;
          consumed := true;
        }
        if !consumed { break; }
        count := count + 1;
        if Strip(anchor) != "" { anchors := anchors + [anchor]; }
      }
    }

    method AdvanceToAnchor(anchor: string, input: seq<string>, cursor: nat, requireMatch: bool, force: bool)
      returns (r: Result<nat, DiffError>)
      requires cursor <= |input|
      modifies this`fuzz
      ensures match AdvanceCursor(anchor, input, cursor, requireMatch, force)
              case Ok(m) => r == Ok(m.index) && fuzz == old(fuzz) + m.fuzz
              case Err(e) => r == Err(e) && fuzz == old(fuzz)
    {
      hide FirstMatch, EqualsAt;
      var found := false;
      var at := cursor;
      var before := None;
      if !force { before := Search(input, [anchor], 0, cursor, Exact); }
      if before.Some? {
        found := true;
      } else {
        var i := Search(input, [anchor], cursor, |input|, Exact);
        if i.Some? { at, found := i.value + 1, true; }
      }
      if !found {
        before := None;
        if !force { before := Search(input, [anchor], 0, cursor, Both); }
        if before.Some? {
          found := true;
        } else {
          var i := Search(input, [anchor], cursor, |input|, Both);
          if i.Some? { at, fuzz, found := i.value + 1, fuzz + 1, true; }
        }
      }
      if requireMatch && !found { return Err(InvalidAnchor(cursor, anchor)); }
      return Ok(at);
    }
  }

  method EqualsSlice(source: seq<string>, target: seq<string>, start: nat, tier: Tier) returns (b: bool)
    ensures b == EqualsAt(source, target, start, tier)
  {
    if start + |target| > |source| { return false; }
    for offset := 0 to |target|
      invariant forall k | 0 <= k < offset :: Norm(tier, source[start + k]) == Norm(tier, target[k])
    {
      if Norm(tier, source[start + offset]) != Norm(tier, target[offset]) { return false; }
    }
    return true;
  }

  /** The `for i in range(start, limit)` searches, which stop at the first match. */
  method Search(source: seq<string>, target: seq<string>, start: nat, limit: nat, tier: Tier) returns (r: Option<nat>)
    ensures r == FirstMatch(source, target, start, limit, tier)
  {
    var i := start;
    while i < limit
      invariant start <= i && (start <= limit ==> i <= limit)
      invariant FirstMatch(source, target, start, limit, tier) == FirstMatch(source, target, i, limit, tier)
    {
      var equal := EqualsSlice(source, target, i, tier);
      if equal { return Some(i); }
      i := i + 1;
    }
    return None;
  }

  method FindContextCore(lines: seq<string>, context: seq<string>, start: nat) returns (r: Option<Match>)
    requires start <= |lines|
    ensures r == FindCore(lines, context, start)
  {
    if context == [] { return Some(Match(start, 0)); }
    var i := Search(lines, context, start, |lines|, Exact);
    if i.Some? { return Some(Match(i.value, 0)); }
    i := Search(lines, context, start, |lines|, Trailing);
    if i.Some? { return Some(Match(i.value, 1)); }
    i := Search(lines, context, start, |lines|, Both);
    if i.Some? { return Some(Match(i.value, 100)); }
    return None;
  }

  method ReadSectionLoop(lines: seq<string>, start: nat) returns (r: Result<Section, DiffError>)
    requires start <= |lines|
    ensures r == ReadSection(lines, start)
  {
    var context: seq<string>, dels: seq<string>, inss: seq<string>, chunks: seq<Chunk<string>> := [], [], [], [];
    var mode := KeepMode;
    var index := start;
    while index < |lines|
      invariant start <= index <= |lines|
      invariant Reader(context, dels, inss, chunks, mode).Valid()
      invariant ReadLines(lines, start, EMPTY_READER)
             == ReadLines(lines, index, Reader(context, dels, inss, chunks, mode))
    {
      var raw := lines[index];
      if StopsSection(raw) { break; }
      if StartsWith(raw, "***") { return Err(InvalidLine(raw)); }
      index := index + 1;
      var lastMode := mode;
      var line := if raw != "" then raw else " ";
      if line[0] == '+' {
        mode := AddMode;
      } else if line[0] == '-' {
        mode := DeleteMode;
      } else if line[0] == ' ' {
        mode := KeepMode;
      } else {
        return Err(InvalidLine(line));
      }
      var content := line[1..];
      if mode == KeepMode && lastMode != mode && (dels != [] || inss != []) {
        chunks := chunks + [Chunk(|context| - |dels|, dels, inss)];
        dels, inss := [], [];
      }
      if mode == DeleteMode {
        dels, context := dels + [content], context + [content];
      } else if mode == AddMode {
        inss := inss + [content];
      } else {
        context := context + [content];
      }
    }
    if dels != [] || inss != [] {
      chunks := chunks + [Chunk(|context| - |dels|, dels, inss)];
    }
    if index < |lines| && lines[index] == END_FILE { return Ok(Section(context, chunks, index + 1, true)); }
    if index == start { return Err(NothingInSection(index)); }
    return Ok(Section(context, chunks, index, false));
  }

  /** The `for index, anchor in enumerate(anchors)` loop of one hunk. */
  method AdvanceThrough(parser: ParserState, anchors: seq<string>, input: seq<string>, start: nat, requireMatch: bool)
    returns (r: Result<nat, DiffError>)
    requires start <= |input|
    modifies parser`fuzz
    ensures match AdvanceAll(anchors, 0, input, start, 0, requireMatch)
            case Ok(m) => r == Ok(m.index) && parser.fuzz == old(parser.fuzz) + m.fuzz
            case Err(e) => r == Err(e)
  {
    hide AdvanceCursor;
    var cursor: nat := start;
    for k := 0 to |anchors|
      invariant cursor <= |input| && old(parser.fuzz) <= parser.fuzz
      invariant AdvanceAll(anchors, 0, input, start, 0, requireMatch)
             == AdvanceAll(anchors, k, input, cursor, parser.fuzz - old(parser.fuzz), requireMatch)
    {
      var advanced := parser.AdvanceToAnchor(anchors[k], input, cursor, requireMatch, k > 0);
      if advanced.Err? { return Err(advanced.error); }
      cursor := advanced.value;
    }
    return Ok(cursor);
  }

  /** The body of the parser's loop: one hunk, and the cursor after it. */
  method ParseHunk(parser: ParserState, input: seq<string>, start: nat)
    returns (r: Result<(nat, nat, seq<Chunk<string>>), DiffError>)
    requires parser.index <= |parser.lines| && start <= |input|
    modifies parser
    ensures parser.index <= |parser.lines|
    ensures match ParseRound(parser.lines, old(parser.index), input, start)
            case Ok(round) =>
              && r == Ok((round.cursor, round.at, round.section.chunks))
              && parser.index == round.index && parser.fuzz == old(parser.fuzz) + round.fuzz
            case Err(e) => r == Err(e)
  {
    hide ReadAnchorsFrom, AdvanceAll, FindContext, ReadSection;
    var anchors, count := parser.ReadAnchors();
    if !(count > 0 || start == 0) {
      return Err(InvalidLine(if parser.index < |parser.lines| then parser.lines[parser.index] else ""));
    }
    var advanced := AdvanceThrough(parser, anchors, input, start, count > 1);
    if advanced.Err? { return Err(advanced.error); }
    var cursor := advanced.value;
    var read := ReadSectionLoop(parser.lines, parser.index);
    if read.Err? { return Err(read.error); }
    var section := read.value;
    var found := FindContextMethod(input, section.context, cursor, section.eof);
    if found.None? {
      return Err(if section.eof then InvalidEofContext(cursor, section.context)
                 else InvalidContext(cursor, section.context));
    }
    parser.fuzz := parser.fuzz + found.value.fuzz;
    parser.index := section.end;
    return Ok((found.value.index + |section.context|, found.value.index, section.chunks));
  }

  method AppendShifted(before: seq<Chunk<string>>, found: seq<Chunk<string>>, at: nat) returns (chunks: seq<Chunk<string>>)
    ensures chunks == before + Shift(found, at)
  {
    chunks := before;
    for j := 0 to |found|
      invariant chunks == before + Shift(found, at)[..j]
    {
      chunks := chunks + [Chunk(found[j].origIndex + at, found[j].delLines, found[j].insLines)];
    }
  }

  method ParseUpdateDiff(diff: seq<string>, input: seq<string>) returns (r: Result<Parsed, DiffError>)
    ensures r == ParseUpdate(diff, input)
  {
    hide ParseRound, Shift, StartsWithAny;
    var parser := new ParserState(diff + [END_PATCH]);
    var chunks: seq<Chunk<string>> := [];
    var cursor: nat := 0;
    while !Done(parser.lines, parser.index, END_SECTION_MARKERS)
      invariant parser.lines == diff + [END_PATCH]
      invariant parser.index <= |parser.lines| && cursor <= |input|
      invariant ParseUpdate(diff, input)
             == ParseFrom(parser.lines, parser.index, input, cursor, chunks, parser.fuzz)
      decreases |parser.lines| - parser.index
    {
      var hunk := ParseHunk(parser, input, cursor);
      if hunk.Err? { return Err(hunk.error); }
      chunks := AppendShifted(chunks, hunk.value.2, hunk.value.1);
      cursor := hunk.value.0;
    }
    return Ok(Parsed(chunks, parser.fuzz));
  }

  method FindContextMethod(lines: seq<string>, context: seq<string>, start: nat, eof: bool) returns (r: Option<Match>)
    requires start <= |lines|
    ensures r == FindContext(lines, context, start, eof)
  {
    if eof {
      var search := EofSearchLines(lines);
      var endStart := if |search| > |context| then |search| - |context| else 0;
      var endMatch := FindContextCore(search, context, endStart);
      if endMatch.Some? { return endMatch; }
      var fallback := FindContextCore(search, context, if start < |search| then start else |search|);
      if fallback.None? { return None; }
      return Some(Match(fallback.value.index, fallback.value.fuzz + 10000));
    }
    r := FindContextCore(lines, context, start);
  }

  method ApplyChunks(lines: seq<string>, chunks: seq<Chunk<string>>) returns (r: Result<seq<string>, DiffError>)
    ensures r == Apply(lines, chunks)
  {
    var dest: seq<string> := [];
    var cursor: nat := 0;
    for k := 0 to |chunks|
      invariant ApplyError(chunks, |lines|, 0, 0) == ApplyError(chunks, |lines|, k, cursor)
      invariant forall upto | cursor <= upto <= |lines| || upto == |lines| ::
                  Image(lines, chunks[..k], upto) == dest + Slice(lines, cursor, upto)
    {
      var chunk := chunks[k];
      if chunk.origIndex > |lines| { return Err(ChunkPastEnd(chunk.origIndex)); }
      if cursor > chunk.origIndex { return Err(OverlappingChunk(chunk.origIndex)); }
      assert chunks[..k + 1][..k] == chunks[..k];
      dest := dest + lines[cursor..chunk.origIndex] + chunk.insLines;
      cursor := chunk.origIndex + |chunk.delLines|;
    }
    assert chunks[..|chunks|] == chunks;
    dest := dest + Slice(lines, cursor, |lines|);
    return Ok(dest);
  }
}
