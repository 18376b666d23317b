/** What a parsed V4A diff may do to a file: where its hunks land, which lines it deletes,
    that the applier cannot fail, and where every line of the result comes from. */
module ApplyDiffTheorems {
  import opened PyText
  import opened Results
  import opened Chunks
  import opened ApplyDiff

  // ---------------------------------------------------------------- the context search

  function TierCost(tier: Tier): nat {
    match tier
    case Exact => 0
    case Trailing => 1
    case Both => 100
  }

  predicate NoMatch(lines: seq<string>, context: seq<string>, start: nat, limit: nat, tier: Tier) {
    forall i | start <= i < limit :: !EqualsAt(lines, context, i, tier)
  }

  /** `found` is the least place, at or after `start`, of the strictest tier that matches at all. */
  predicate BestMatch(lines: seq<string>, context: seq<string>, start: nat, found: Option<Match>) {
    match found
    case None => forall tier: Tier :: NoMatch(lines, context, start, |lines|, tier)
    case Some(m) =>
      exists tier: Tier :: BestAt(lines, context, start, m, tier)
  }

  predicate BestAt(lines: seq<string>, context: seq<string>, start: nat, m: Match, tier: Tier) {
    && m.fuzz == TierCost(tier)
    && start <= m.index < |lines|
    && EqualsAt(lines, context, m.index, tier)
    && NoMatch(lines, context, start, m.index, tier)
    && forall stricter: Tier | TierCost(stricter) < m.fuzz :: NoMatch(lines, context, start, |lines|, stricter)
  }

  lemma {:induction false} FirstMatchIsLeast(source: seq<string>, target: seq<string>, start: nat, limit: nat, tier: Tier)
    ensures match FirstMatch(source, target, start, limit, tier)
            case Some(i) => EqualsAt(source, target, i, tier) && NoMatch(source, target, start, i, tier)
            case None => NoMatch(source, target, start, limit, tier)
    decreases limit - start
  {
    hide EqualsAt;
    if start < limit && !EqualsAt(source, target, start, tier) {
      FirstMatchIsLeast(source, target, start + 1, limit, tier);
    }
  }

  lemma SearchFindsBest(lines: seq<string>, context: seq<string>, start: nat)
    requires context != [] && start <= |lines|
    ensures BestMatch(lines, context, start, FindCore(lines, context, start))
  {
    hide EqualsAt, FirstMatch;
    FirstMatchIsLeast(lines, context, start, |lines|, Exact);
    FirstMatchIsLeast(lines, context, start, |lines|, Trailing);
    FirstMatchIsLeast(lines, context, start, |lines|, Both);
    var r := FindCore(lines, context, start);
    if r.Some? {
      var tier := if r.value.fuzz == 0 then Exact else if r.value.fuzz == 1 then Trailing else Both;
      assert BestAt(lines, context, start, r.value, tier);
    } else {
      forall tier: Tier
        ensures NoMatch(lines, context, start, |lines|, tier)
      {
        match tier case Exact => case Trailing => case Both =>
      }
    }
  }

  lemma SomeIsNotNone(lines: seq<string>, context: seq<string>, start: nat, m: Match)
    requires BestMatch(lines, context, start, Some(m))
    ensures !BestMatch(lines, context, start, None)
  {
    hide EqualsAt;
    var tier: Tier :| BestAt(lines, context, start, m, tier);
    assert !NoMatch(lines, context, start, |lines|, tier);
  }

  lemma BestIsUnique(lines: seq<string>, context: seq<string>, start: nat, a: Option<Match>, b: Option<Match>)
    requires BestMatch(lines, context, start, a) && BestMatch(lines, context, start, b)
    ensures a == b
  {
    hide EqualsAt;
    if a.Some? { SomeIsNotNone(lines, context, start, a.value); }
    if b.Some? { SomeIsNotNone(lines, context, start, b.value); }
    if a.Some? {
      var s: Tier :| BestAt(lines, context, start, a.value, s);
      var t: Tier :| BestAt(lines, context, start, b.value, t);
      assert !NoMatch(lines, context, start, |lines|, s) && !NoMatch(lines, context, start, |lines|, t);
      assert s == t;
    }
  }

  /** The three passes find the best match, and nothing else is one. */
  lemma ContextSearchIsBest(lines: seq<string>, context: seq<string>, start: nat, found: Option<Match>)
    requires context != [] && start <= |lines|
    ensures found == FindCore(lines, context, start) <==> BestMatch(lines, context, start, found)
  {
    hide BestMatch, FindCore;
    SearchFindsBest(lines, context, start);
    if BestMatch(lines, context, start, found) {
      BestIsUnique(lines, context, start, found, FindCore(lines, context, start));
    }
  }

  lemma ExactImpliesAll(lines: seq<string>, context: seq<string>, at: nat, tier: Tier)
    requires EqualsAt(lines, context, at, tier)
    ensures EqualsAt(lines, context, at, Both)
  {
    forall k | 0 <= k < |context|
      ensures Strip(lines[at + k]) == Strip(context[k])
    {
      assert Norm(tier, lines[at + k]) == Norm(tier, context[k]);
    }
  }

  lemma CoreMatches(lines: seq<string>, context: seq<string>, start: nat)
    requires start <= |lines| && FindCore(lines, context, start).Some?
    ensures var m := FindCore(lines, context, start).value;
            && EqualsAt(lines, context, m.index, Both)
            && (m.fuzz == 0 ==> EqualsAt(lines, context, m.index, Exact))
  {
    hide FirstMatch;
    var m := FindCore(lines, context, start).value;
    if context != [] {
      hide EqualsAt;
      SearchFindsBest(lines, context, start);
      var tier: Tier :| BestAt(lines, context, start, m, tier);
      ExactImpliesAll(lines, context, m.index, tier);
    }
  }

  lemma EqualsAtLonger(lines: seq<string>, context: seq<string>, at: nat, tier: Tier)
    requires EqualsAt(EofSearchLines(lines), context, at, tier)
    ensures EqualsAt(lines, context, at, tier)
  {}

  lemma FoundContextMatches(lines: seq<string>, context: seq<string>, start: nat, eof: bool)
    requires start <= |lines| && FindContext(lines, context, start, eof).Some?
    ensures var m := FindContext(lines, context, start, eof).value;
            && EqualsAt(lines, context, m.index, Both)
            && (m.fuzz == 0 ==> EqualsAt(lines, context, m.index, Exact))
  {
    hide EqualsAt, FindCore;
    if !eof {
      CoreMatches(lines, context, start);
    } else {
      var m := FindContext(lines, context, start, eof).value;
      var search := EofSearchLines(lines);
      var from := if |search| > |context| then |search| - |context| else 0;
      if FindCore(search, context, from).None? {
        from := if start < |search| then start else |search|;
      }
      CoreMatches(search, context, from);
      EqualsAtLonger(lines, context, m.index, Both);
      if m.fuzz == 0 { EqualsAtLonger(lines, context, m.index, Exact); }
    }
  }

  lemma {:induction false} RStripCuts(s: string)
    ensures RStrip(s) <= s && (RStrip(s) != "" ==> !IsSpace(RStrip(s)[|RStrip(s)| - 1]))
    ensures forall k | |RStrip(s)| <= k < |s| :: IsSpace(s[k])
    decreases |s|
  {
    hide IsSpace;
    if s != "" && IsSpace(s[|s| - 1]) { RStripCuts(s[..|s| - 1]); }
  }

  lemma {:induction false} LStripCuts(s: string)
    ensures |LStrip(s)| <= |s| && s[|s| - |LStrip(s)|..] == LStrip(s) && (LStrip(s) != "" ==> !IsSpace(LStrip(s)[0]))
    ensures forall k | 0 <= k < |s| - |LStrip(s)| :: IsSpace(s[k])
    decreases |s|
  {
    hide IsSpace;
    if s != "" && IsSpace(s[0]) { LStripCuts(s[1..]); }
  }

  /** What the tiers compare: the lines as they are, without their final white space, and without
      the white space at both ends. */
  lemma TiersCut(s: string)
    ensures Norm(Exact, s) == s
    ensures var t := Norm(Trailing, s);
            t <= s && (t != "" ==> !IsSpace(t[|t| - 1])) && forall k | |t| <= k < |s| :: IsSpace(s[k])
    ensures var (t, u) := (Norm(Trailing, s), Norm(Both, s));
            && |u| <= |t| && t[|t| - |u|..] == u && (u != "" ==> !IsSpace(u[0]))
            && forall k | 0 <= k < |t| - |u| :: IsSpace(t[k])
  {
    hide IsSpace, RStrip, LStrip;
    RStripCuts(s);
    LStripCuts(RStrip(s));
  }

  // ---------------------------------------------------------------- the end-of-file search

  /** `search` is the file's lines without the empty element that a final newline leaves behind. */
  predicate WithoutFinalBlank(lines: seq<string>, search: seq<string>) {
    if lines != [] && lines[|lines| - 1] == "" then lines == search + [""] else lines == search
  }

  /** The context stands at the end of the file, up to the tier. */
  predicate StandsAtEnd(search: seq<string>, context: seq<string>, tier: Tier) {
    |context| <= |search| && EqualsAt(search, context, |search| - |context|, tier)
  }

  /** Where a hunk with an end-of-file marker goes: an empty context goes to the end; any other one
      stands at the end, in the strictest tier it stands there in, or else, for 10000 more fuzz, at
      the best match from the cursor on. */
  predicate LandsAtEnd(search: seq<string>, context: seq<string>, cursor: nat, found: Option<Match>) {
    if context == [] then found == Some(Match(|search|, 0))
    else if StandsAtEnd(search, context, Both) then
      && found.Some? && found.value.index == |search| - |context|
      && exists tier: Tier :: found.value.fuzz == TierCost(tier) && StandsAtEnd(search, context, tier)
           && forall stricter: Tier | TierCost(stricter) < TierCost(tier) :: !StandsAtEnd(search, context, stricter)
    else
      var from := if cursor < |search| then cursor else |search|;
      match found
      case None => BestMatch(search, context, from, None)
      case Some(m) => m.fuzz >= 10000 && BestMatch(search, context, from, Some(Match(m.index, m.fuzz - 10000)))
  }

  /** Only the end itself is left to match from the last place on where the context fits. */
  lemma BestAtEnd(search: seq<string>, context: seq<string>, found: Option<Match>)
    requires context != []
    requires var from := if |search| > |context| then |search| - |context| else 0; BestMatch(search, context, from, found)
    ensures found.Some? <==> StandsAtEnd(search, context, Both)
    ensures found.Some? ==> found.value.fuzz < 10000 && LandsAtEnd(search, context, 0, found)
  {
    hide Norm;
    var from := if |search| > |context| then |search| - |context| else 0;
    forall tier: Tier
      ensures StandsAtEnd(search, context, tier) <==> !NoMatch(search, context, from, |search|, tier)
    {
      if StandsAtEnd(search, context, tier) { assert EqualsAt(search, context, from, tier); }
    }
    if found.Some? {
      var tier: Tier :| BestAt(search, context, from, found.value, tier);
      ExactImpliesAll(search, context, found.value.index, tier);
      assert StandsAtEnd(search, context, tier);
    }
  }

  /** The end-of-file search gives what `LandsAtEnd` says, and nothing else. */
  lemma EofContextLands(lines: seq<string>, search: seq<string>, context: seq<string>, cursor: nat, found: Option<Match>)
    requires cursor <= |lines| && WithoutFinalBlank(lines, search)
    ensures found == FindContext(lines, context, cursor, true) <==> LandsAtEnd(search, context, cursor, found)
  {
    hide FindCore, BestMatch, StandsAtEnd;
    assert EofSearchLines(lines) == search;
    var last := if |search| > |context| then |search| - |context| else 0;
    var from := if cursor < |search| then cursor else |search|;
    if context == [] {
      EmptyContext(search, last);
    } else {
      var atEnd, fallback := FindCore(search, context, last), FindCore(search, context, from);
      ContextSearchIsBest(search, context, last, atEnd);
      BestAtEnd(search, context, atEnd);
      ContextSearchIsBest(search, context, from, fallback);
      if atEnd.Some? {
        EndIsUnique(search, context, cursor, atEnd, found);
      } else {
        ContextSearchIsBest(search, context, from, None);
        if found.Some? && found.value.fuzz >= 10000 {
          ContextSearchIsBest(search, context, from, Some(Match(found.value.index, found.value.fuzz - 10000)));
        }
      }
    }
  }

  lemma EndIsUnique(search: seq<string>, context: seq<string>, cursor: nat, a: Option<Match>, b: Option<Match>)
    requires context != [] && StandsAtEnd(search, context, Both) && LandsAtEnd(search, context, 0, a)
    ensures LandsAtEnd(search, context, cursor, b) <==> a == b
  {
    hide EqualsAt, BestMatch;
    if LandsAtEnd(search, context, cursor, b) {
      var s: Tier :| a.value.fuzz == TierCost(s) && StandsAtEnd(search, context, s)
        && forall stricter: Tier | TierCost(stricter) < TierCost(s) :: !StandsAtEnd(search, context, stricter);
      var t: Tier :| b.value.fuzz == TierCost(t) && StandsAtEnd(search, context, t)
        && forall stricter: Tier | TierCost(stricter) < TierCost(t) :: !StandsAtEnd(search, context, stricter);
      assert s == t;
    }
  }

  // ---------------------------------------------------------------- sections

  /** Every chunk's deleted lines stand in `lines` at the chunk's place, up to the tier. */
  predicate DeletesFrom(lines: seq<string>, chunks: seq<Chunk<string>>, tier: Tier) {
    forall k | 0 <= k < |chunks| :: EqualsAt(lines, chunks[k].delLines, chunks[k].origIndex, tier)
  }

  /** The same inside a section, where the deleted lines are context lines as they stand. */
  ghost predicate DeletesContext(context: seq<string>, chunks: seq<Chunk<string>>) {
    forall k | 0 <= k < |chunks| :: LiesAt(context, chunks[k].delLines, chunks[k].origIndex)
  }

  ghost predicate ReaderInv(s: Reader) {
    && s.Valid()
    && LiesAt(s.context, s.dels, |s.context| - |s.dels|)
    && Placed(s.chunks, 0, |s.context| - |s.dels|)
    && DeletesContext(s.context, s.chunks)
  }

  lemma FlushKeepsInv(s: Reader)
    requires ReaderInv(s)
    ensures ReaderInv(s.Flush())
  {
    hide LiesAt;
    var f := s.Flush();
    if f != s {
      assert f.chunks[..|f.chunks| - 1] == s.chunks;
      NothingLiesAnywhere(f.context, |f.context|);
    }
  }

  lemma DeletesContextGrows(context: seq<string>, line: string, chunks: seq<Chunk<string>>)
    requires DeletesContext(context, chunks)
    ensures DeletesContext(context + [line], chunks)
  {
    forall k | 0 <= k < |chunks|
      ensures LiesAt(context + [line], chunks[k].delLines, chunks[k].origIndex)
    {
      assert LiesAt(context, chunks[k].delLines, chunks[k].origIndex);
    }
  }

  lemma ReadLineKeepsInv(s: Reader, raw: string)
    requires ReaderInv(s) && ReadLine(s, raw).Ok?
    ensures ReaderInv(ReadLine(s, raw).value)
  {
    hide DeletesContext, Placed, LiesAt;
    var line := if raw == "" then " " else raw;
    if line[0] == '-' {
      DeletesContextGrows(s.context, line[1..], s.chunks);
      LiesAtGrows(s.context, s.dels, |s.context| - |s.dels|, line[1..]);
    } else if line[0] == ' ' {
      FlushKeepsInv(s);
      var f := s.Flush();
      DeletesContextGrows(f.context, line[1..], f.chunks);
      PlacedWiden(f.chunks, 0, |f.context|, |f.context| + 1);
      NothingLiesAnywhere(f.context + [line[1..]], |f.context| + 1);
    }
  }

  lemma {:induction false} ReadLinesKeepsInv(lines: seq<string>, index: nat, s: Reader)
    requires index <= |lines| && ReaderInv(s) && ReadLines(lines, index, s).Ok?
    ensures ReaderInv(ReadLines(lines, index, s).value.0)
    decreases |lines| - index
  {
    if !(index == |lines| || StopsSection(lines[index])) {
      ReadLineKeepsInv(s, lines[index]);
      ReadLinesKeepsInv(lines, index + 1, ReadLine(s, lines[index]).value);
    }
  }

  /** A section's chunks are disjoint, ordered, inside its context, and delete context lines. */
  lemma SectionChunks(lines: seq<string>, start: nat)
    requires start <= |lines| && ReadSection(lines, start).Ok?
    ensures var section := ReadSection(lines, start).value;
            && Placed(section.chunks, 0, |section.context|)
            && DeletesContext(section.context, section.chunks)
            && (section.eof ==> lines[section.end - 1] == END_FILE)
  {
    NothingLiesAnywhere<string>([], 0);
    ReadLinesKeepsInv(lines, start, EMPTY_READER);
    hide LiesAt, Placed, DeletesContext, ReadLines;
    FlushKeepsInv(ReadLines(lines, start, EMPTY_READER).value.0);
  }

  // ---------------------------------------------------------------- whole diffs

  lemma DeletesFromConcat(input: seq<string>, a: seq<Chunk<string>>, context: seq<string>, b: seq<Chunk<string>>, at: nat, tier: Tier)
    requires DeletesFrom(input, a, tier) && DeletesContext(context, b) && EqualsAt(input, context, at, tier)
    ensures DeletesFrom(input, a + Shift(b, at), tier)
  {
    var all := a + Shift(b, at);
    forall k | 0 <= k < |all|
      ensures EqualsAt(input, all[k].delLines, all[k].origIndex, tier)
    {
      if k < |a| {
        assert EqualsAt(input, a[k].delLines, a[k].origIndex, tier);
      } else {
        var c := b[k - |a|];
        forall j | 0 <= j < |c.delLines|
          ensures Norm(tier, input[c.origIndex + at + j]) == Norm(tier, c.delLines[j])
        {
          assert LiesAt(context, c.delLines, c.origIndex);
          assert Norm(tier, input[at + (c.origIndex + j)]) == Norm(tier, context[c.origIndex + j]);
        }
      }
    }
  }

  // ---------------------------------------------------------------- the headers

  /** The texts of header lines, in order, without the blank ones. */
  function HeaderTexts(headers: seq<string>): seq<string>
    requires forall h | h in headers :: AnchorText(h).Some?
  {
    if headers == [] then []
    else
      var n := |headers| - 1;
      assert headers[n] in headers;
      var text := AnchorText(headers[n]).value;
      HeaderTexts(headers[..n]) + if Strip(text) == "" then [] else [text]
  }

  lemma {:induction false} HeadersReadOn(lines: seq<string>, start: nat, index: nat, texts: seq<string>, count: nat)
    requires start <= index <= |lines| && (forall k | start <= k < index :: AnchorText(lines[k]).Some?)
    requires texts == HeaderTexts(lines[start..index]) && count == index - start
    ensures var r := ReadAnchorsFrom(lines, index, texts, count);
            && (forall k | start <= k < r.index :: AnchorText(lines[k]).Some?)
            && (r.index < |lines| ==> AnchorText(lines[r.index]).None?)
            && r.texts == HeaderTexts(lines[start..r.index]) && r.count == r.index - start
    decreases |lines| - index
  {
    hide AnchorText, Strip;
    if index < |lines| && AnchorText(lines[index]).Some? {
      var text := AnchorText(lines[index]).value;
      assert lines[start..index + 1][..index - start] == lines[start..index];
      HeadersReadOn(lines, start, index + 1, if Strip(text) == "" then texts else texts + [text], count + 1);
    }
  }

  /** The headers of a hunk are all the header lines that stand together from `index` on: each
      counts, and each that is not blank narrows the search, in their order. */
  lemma HeadersAreMaximal(lines: seq<string>, index: nat)
    requires index <= |lines|
    ensures var r := ReadAnchorsFrom(lines, index, [], 0);
            && (forall k | index <= k < r.index :: AnchorText(lines[k]).Some?)
            && (r.index < |lines| ==> AnchorText(lines[r.index]).None?)
            && r.texts == HeaderTexts(lines[index..r.index]) && r.count == r.index - index
  {
    HeadersReadOn(lines, index, index, [], 0);
  }

  /** Line `i` is the header, up to the tier's white space. */
  predicate IsLine(input: seq<string>, header: string, i: nat, tier: Tier)
    requires i < |input|
  {
    Norm(tier, input[i]) == Norm(tier, header)
  }

  predicate StandsIn(input: seq<string>, header: string, lo: nat, hi: nat, tier: Tier)
    requires hi <= |input|
  {
    exists i | lo <= i < hi :: IsLine(input, header, i, tier)
  }

  /** `next` is one past the least line at or after the cursor that is the header. */
  predicate PastFirst(input: seq<string>, header: string, cursor: nat, next: nat, tier: Tier) {
    && cursor < next <= |input| && IsLine(input, header, next - 1, tier)
    && !StandsIn(input, header, cursor, next - 1, tier)
  }

  /** Where one header moves the cursor, and for how much fuzz: not at all when the header stands
      above the cursor and the search may look there; else past the first line that is the header,
      exactly or, where no line is, up to surrounding white space. Nothing when no line is. */
  predicate HeaderLands(header: string, input: seq<string>, cursor: nat, force: bool, found: Option<Match>)
    requires cursor <= |input|
  {
    match found
    case None =>
      && !StandsIn(input, header, cursor, |input|, Both)
      && (!force ==> !StandsIn(input, header, 0, cursor, Both))
    case Some(m) =>
      || (m == Match(cursor, 0) && !force && StandsIn(input, header, 0, cursor, Exact))
      || (m.fuzz == 0 && PastFirst(input, header, cursor, m.index, Exact) && (!force ==> !StandsIn(input, header, 0, cursor, Exact)))
      || (!StandsIn(input, header, cursor, |input|, Exact)
          && ((m == Match(cursor, 0) && !force && StandsIn(input, header, 0, cursor, Both))
              || (m.fuzz == 1 && PastFirst(input, header, cursor, m.index, Both)
                  && (!force ==> !StandsIn(input, header, 0, cursor, Both)))))
  }

  lemma FirstLineIsLeast(input: seq<string>, header: string, lo: nat, hi: nat, tier: Tier)
    requires lo <= hi <= |input|
    ensures match FirstMatch(input, [header], lo, hi, tier)
            case None => !StandsIn(input, header, lo, hi, tier)
            case Some(i) => lo <= i < hi && IsLine(input, header, i, tier) && !StandsIn(input, header, lo, i, tier)
  {
    hide Norm, FirstMatch;
    FirstMatchIsLeast(input, [header], lo, hi, tier);
    forall i | lo <= i < hi
      ensures EqualsAt(input, [header], i, tier) <==> IsLine(input, header, i, tier)
    {
      assert EqualsAt(input, [header], i, tier) ==> Norm(tier, input[i + 0]) == Norm(tier, [header][0]);
    }
  }

  lemma ExactLineIsLine(input: seq<string>, header: string, lo: nat, hi: nat)
    requires hi <= |input| && StandsIn(input, header, lo, hi, Exact)
    ensures StandsIn(input, header, lo, hi, Both)
  {
    var i :| lo <= i < hi && IsLine(input, header, i, Exact);
    assert IsLine(input, header, i, Both);
  }

  /** A header's search ends where `HeaderLands` says, and nowhere else. */
  lemma AnchorLands(header: string, input: seq<string>, cursor: nat, force: bool, found: Option<Match>)
    requires cursor <= |input|
    ensures found == FindAnchor(header, input, cursor, force) <==> HeaderLands(header, input, cursor, force, found)
  {
    hide FirstMatch, IsLine;
    FirstLineIsLeast(input, header, 0, cursor, Exact);
    FirstLineIsLeast(input, header, cursor, |input|, Exact);
    FirstLineIsLeast(input, header, 0, cursor, Both);
    FirstLineIsLeast(input, header, cursor, |input|, Both);
    if StandsIn(input, header, 0, cursor, Exact) { ExactLineIsLine(input, header, 0, cursor); }
    if StandsIn(input, header, cursor, |input|, Exact) { ExactLineIsLine(input, header, cursor, |input|); }
  }

  /** One header of a hunk moves the cursor to `m`; where nothing must match, it may leave it alone. */
  predicate StepLands(header: string, input: seq<string>, cursor: nat, later: bool, must: bool, m: Match)
    requires cursor <= |input|
  {
    || HeaderLands(header, input, cursor, later, Some(m))
    || (!must && m == Match(cursor, 0) && HeaderLands(header, input, cursor, later, None))
  }

  /** The headers of a hunk move the cursor in turn; only the first may look above it. */
  predicate HeadersLand(headers: seq<string>, later: bool, input: seq<string>, cursor: nat, must: bool, steps: seq<Match>) {
    && |steps| == |headers| && cursor <= |input|
    && (headers != [] ==>
          && StepLands(headers[0], input, cursor, later, must, steps[0])
          && HeadersLand(headers[1..], true, input, steps[0].index, must, steps[1..]))
  }

  /** Where the last step ends, and the fuzz of all. */
  function Arrival(cursor: nat, steps: seq<Match>): Match
    decreases |steps|
  {
    if steps == [] then Match(cursor, 0)
    else
      var rest := Arrival(steps[0].index, steps[1..]);
      Match(rest.index, steps[0].fuzz + rest.fuzz)
  }

  lemma {:induction false} HeadersInTurn(headers: seq<string>, k: nat, input: seq<string>, cursor: nat, fuzz: nat, must: bool)
    returns (steps: seq<Match>)
    requires k <= |headers| && cursor <= |input| && AdvanceAll(headers, k, input, cursor, fuzz, must).Ok?
    ensures HeadersLand(headers[k..], k > 0, input, cursor, must, steps)
    ensures var end := AdvanceAll(headers, k, input, cursor, fuzz, must).value;
            end.index == Arrival(cursor, steps).index && end.fuzz == fuzz + Arrival(cursor, steps).fuzz
    decreases |headers| - k
  {
    hide FindAnchor, HeaderLands;
    steps := [];
    if k < |headers| {
      var m := AdvanceCursor(headers[k], input, cursor, must, k > 0).value;
      AnchorLands(headers[k], input, cursor, k > 0, FindAnchor(headers[k], input, cursor, k > 0));
      var rest := HeadersInTurn(headers, k + 1, input, m.index, fuzz + m.fuzz, must);
      steps := [m] + rest;
      assert steps[1..] == rest && headers[k..][1..] == headers[k + 1..] && headers[k..][0] == headers[k];
    }
  }

  /** The hunk's headers move the cursor to `from`, and its context lands at the best match from there,
      or where the end-of-file marker sends it. */
  ghost predicate LandsFrom(lines: seq<string>, index: nat, input: seq<string>, cursor: nat, r: Round, from: Match)
    requires index <= |lines| && cursor <= |input|
  {
    var anchors := ReadAnchorsFrom(lines, index, [], 0);
    && (exists steps :: HeadersLand(anchors.texts, false, input, cursor, anchors.count > 1, steps) && from == Arrival(cursor, steps))
    && cursor <= from.index && (!r.section.eof ==> from.index <= r.at) && from.fuzz <= r.fuzz
    && var found := Match(r.at, r.fuzz - from.fuzz);
       if r.section.eof then
         forall search | WithoutFinalBlank(input, search) :: LandsAtEnd(search, r.section.context, from.index, Some(found))
       else if r.section.context == [] then found == Match(from.index, 0)
       else BestMatch(input, r.section.context, from.index, Some(found))
  }

  /** One round: where its hunk lands, and what its chunks delete there. */
  lemma RoundLands(lines: seq<string>, index: nat, input: seq<string>, cursor: nat)
    requires index <= |lines| && cursor <= |input| && ParseRound(lines, index, input, cursor).Ok?
    ensures var r := ParseRound(lines, index, input, cursor).value;
            && r.cursor == r.at + |r.section.context| && r.index == r.section.end
            && EqualsAt(input, r.section.context, r.at, Both)
            && (r.fuzz == 0 ==> EqualsAt(input, r.section.context, r.at, Exact))
            && (r.section.eof ==> lines[r.section.end - 1] == END_FILE)
            && Placed(r.section.chunks, 0, |r.section.context|)
            && DeletesContext(r.section.context, r.section.chunks)
            && exists from: Match :: LandsFrom(lines, index, input, cursor, r, from)
  {
    hide EqualsAt, FindCore, BestMatch, AdvanceAll, ReadAnchorsFrom, ReadSection, Placed, DeletesContext, HeadersLand, Arrival;
    var r := ParseRound(lines, index, input, cursor).value;
    var anchors := ReadAnchorsFrom(lines, index, [], 0);
    var from := AdvanceAll(anchors.texts, 0, input, cursor, 0, anchors.count > 1).value;
    var steps := HeadersInTurn(anchors.texts, 0, input, cursor, 0, anchors.count > 1);
    assert anchors.texts[0..] == anchors.texts;
    SectionChunks(lines, anchors.index);
    FoundContextMatches(input, r.section.context, from.index, r.section.eof);
    if r.section.eof {
      forall search | WithoutFinalBlank(input, search)
        ensures LandsAtEnd(search, r.section.context, from.index, Some(Match(r.at, r.fuzz - from.fuzz)))
      {
        EofContextLands(input, search, r.section.context, from.index, Some(Match(r.at, r.fuzz - from.fuzz)));
      }
    } else if r.section.context != [] {
      ContextSearchIsBest(input, r.section.context, from.index, FindCore(input, r.section.context, from.index));
    } else {
      EmptyContext(input, from.index);
    }
    assert LandsFrom(lines, index, input, cursor, r, from);
  }

  lemma EmptyContext(lines: seq<string>, start: nat)
    requires start <= |lines|
    ensures FindCore(lines, [], start) == Some(Match(start, 0))
  {}

  lemma {:induction false} ParseDeletes(lines: seq<string>, index: nat, input: seq<string>, cursor: nat,
                                        chunks: seq<Chunk<string>>, fuzz: nat)
    requires index <= |lines| && cursor <= |input|
    requires DeletesFrom(input, chunks, Both) && (fuzz == 0 ==> DeletesFrom(input, chunks, Exact))
    ensures match ParseFrom(lines, index, input, cursor, chunks, fuzz)
            case Err(_) => true
            case Ok(p) =>
              && fuzz <= p.fuzz
              && DeletesFrom(input, p.chunks, Both) && (p.fuzz == 0 ==> DeletesFrom(input, p.chunks, Exact))
    decreases |lines| - index
  {
    hide Placed, BestMatch, EqualsAt, DeletesFrom, DeletesContext, ParseRound, Done;
    if !Done(lines, index, END_SECTION_MARKERS) && ParseRound(lines, index, input, cursor).Ok? {
      var r := ParseRound(lines, index, input, cursor).value;
      RoundLands(lines, index, input, cursor);
      DeletesFromConcat(input, chunks, r.section.context, r.section.chunks, r.at, Both);
      if fuzz + r.fuzz == 0 {
        DeletesFromConcat(input, chunks, r.section.context, r.section.chunks, r.at, Exact);
      }
      ParseDeletes(lines, r.index, input, r.cursor, chunks + Shift(r.section.chunks, r.at), fuzz + r.fuzz);
    }
  }

  /** Line `j` of the chunk's deletions is the file's line at its place, up to the tier. */
  predicate DeletesLine(input: seq<string>, chunk: Chunk<string>, j: nat, tier: Tier)
    requires j < |chunk.delLines|
  {
    chunk.End() <= |input| && Norm(tier, input[chunk.origIndex + j]) == Norm(tier, chunk.delLines[j])
  }

  lemma DeletesFromMeaning(input: seq<string>, chunks: seq<Chunk<string>>, tier: Tier)
    requires DeletesFrom(input, chunks, tier)
    ensures forall k, j | 0 <= k < |chunks| && 0 <= j < |chunks[k].delLines| :: DeletesLine(input, chunks[k], j, tier)
  {
    forall k, j | 0 <= k < |chunks| && 0 <= j < |chunks[k].delLines|
      ensures DeletesLine(input, chunks[k], j, tier)
    {
      assert EqualsAt(input, chunks[k].delLines, chunks[k].origIndex, tier);
    }
  }

  /** Every deleted line is the file's line at its place: up to `strip`, and exactly at fuzz 0. */
  lemma DeletedLinesAreTheFiles(diff: seq<string>, input: seq<string>)
    requires ParseUpdate(diff, input).Ok?
    ensures var p := ParseUpdate(diff, input).value;
            forall k, j | 0 <= k < |p.chunks| && 0 <= j < |p.chunks[k].delLines| ::
              && DeletesLine(input, p.chunks[k], j, Both)
              && (p.fuzz == 0 ==> DeletesLine(input, p.chunks[k], j, Exact))
  {
    ParseDeletes(diff + [END_PATCH], 0, input, 0, [], 0);
    var p := ParseUpdate(diff, input).value;
    DeletesFromMeaning(input, p.chunks, Both);
    if p.fuzz == 0 { DeletesFromMeaning(input, p.chunks, Exact); }
  }

  lemma {:induction false} ParsePlaces(lines: seq<string>, index: nat, input: seq<string>, cursor: nat,
                                       chunks: seq<Chunk<string>>, fuzz: nat)
    requires index <= |lines| && cursor <= |input| && END_FILE !in lines
    requires Placed(chunks, 0, cursor)
    ensures match ParseFrom(lines, index, input, cursor, chunks, fuzz)
            case Err(_) => true
            case Ok(p) => Placed(p.chunks, 0, |input|)
    decreases |lines| - index
  {
    hide Placed, BestMatch, EqualsAt, DeletesFrom, DeletesContext, ParseRound, Done;
    if Done(lines, index, END_SECTION_MARKERS) {
      PlacedWiden(chunks, 0, cursor, |input|);
    } else if ParseRound(lines, index, input, cursor).Ok? {
      var r := ParseRound(lines, index, input, cursor).value;
      RoundLands(lines, index, input, cursor);
      PlacedConcat(chunks, r.section.chunks, 0, cursor, r.at, |r.section.context|);
      ParsePlaces(lines, r.index, input, r.cursor, chunks + Shift(r.section.chunks, r.at), fuzz + r.fuzz);
    }
  }

  lemma {:induction false} PlacedNoError(chunks: seq<Chunk<string>>, length: nat, k: nat, cursor: nat)
    requires Placed(chunks, 0, length) && k <= |chunks|
    requires k > 0 ==> cursor == chunks[k - 1].End()
    requires k == 0 ==> cursor == 0
    ensures ApplyError(chunks, length, k, cursor) == None
    decreases |chunks| - k
  {
    if k < |chunks| {
      PlacedBetween(chunks, 0, length, k);
      PlacedNoError(chunks, length, k + 1, chunks[k].End());
    }
  }

  /** Without an end-of-file marker the chunks are disjoint, sorted and in bounds, so a diff
      that parses also applies. */
  lemma WithoutMarkerApplies(diff: seq<string>, input: seq<string>)
    requires END_FILE !in diff && ParseUpdate(diff, input).Ok?
    ensures Placed(ParseUpdate(diff, input).value.chunks, 0, |input|)
    ensures Update(diff, input).Ok?
  {
    ParsePlaces(diff + [END_PATCH], 0, input, 0, [], 0);
    PlacedNoError(ParseUpdate(diff, input).value.chunks, |input|, 0, 0);
  }

  lemma {:induction false} InBoundsNeverPastEnd(chunks: seq<Chunk<string>>, length: nat, k: nat, cursor: nat)
    requires k <= |chunks| && forall c | c in chunks :: c.End() <= length
    ensures match ApplyError(chunks, length, k, cursor)
            case None => true
            case Some(e) => e.OverlappingChunk?
    decreases |chunks| - k
  {
    if k < |chunks| {
      assert chunks[k] in chunks;
      InBoundsNeverPastEnd(chunks, length, k + 1, chunks[k].End());
    }
  }

  lemma {:induction false} NoErrorPlaced(chunks: seq<Chunk<string>>, length: nat, k: nat, cursor: nat)
    requires k <= |chunks| && cursor <= length && (forall c | c in chunks :: c.End() <= length)
    requires Placed(chunks[..k], 0, cursor) && ApplyError(chunks, length, k, cursor) == None
    ensures Placed(chunks, 0, length)
    decreases |chunks| - k
  {
    if k == |chunks| {
      assert chunks[..k] == chunks;
      PlacedWiden(chunks, 0, cursor, length);
    } else {
      assert chunks[k] in chunks;
      assert chunks[..k + 1][..k] == chunks[..k];
      PlacedWiden(chunks[..k], 0, cursor, chunks[k].origIndex);
      NoErrorPlaced(chunks, length, k + 1, chunks[k].End());
    }
  }

  /** With a marker only the overlap error is left; a successful update has disjoint, sorted,
      in-bounds chunks. */
  lemma OnlyOverlapStopsTheApplier(diff: seq<string>, input: seq<string>)
    requires ParseUpdate(diff, input).Ok?
    ensures match Update(diff, input)
            case Err(e) => e.OverlappingChunk? && END_FILE in diff
            case Ok(_) => Placed(ParseUpdate(diff, input).value.chunks, 0, |input|)
  {
    var p := ParseUpdate(diff, input).value;
    ParseDeletes(diff + [END_PATCH], 0, input, 0, [], 0);
    forall c | c in p.chunks
      ensures c.End() <= |input|
    {
      var k :| 0 <= k < |p.chunks| && p.chunks[k] == c;
      assert EqualsAt(input, p.chunks[k].delLines, p.chunks[k].origIndex, Both);
    }
    InBoundsNeverPastEnd(p.chunks, |input|, 0, 0);
    if Update(diff, input).Ok? {
      NoErrorPlaced(p.chunks, |input|, 0, 0);
    } else if END_FILE !in diff {
      WithoutMarkerApplies(diff, input);
    }
  }

  /** Conservation: a successful update is the undeleted lines of the file and the inserted
      lines of the diff, each exactly once and in order. */
  lemma UpdateConserves(diff: seq<string>, input: seq<string>)
    requires Update(diff, input).Ok?
    ensures var chunks := ParseUpdate(diff, input).value.chunks;
            var output := Update(diff, input).value;
            && Placed(chunks, 0, |input|)
            && var trace := Trace(chunks, |input|);
            && Explains(input, chunks, trace, output)
            && (forall x, y | 0 <= x < y < |trace| :: InOrder(chunks, trace[x], trace[y]))
            && (forall i: nat :: FromFile(i) in trace <==> i < |input| && !Deleted(chunks, i))
            && (forall k: nat, j: nat :: FromDiff(k, j) in trace <==> k < |chunks| && j < |chunks[k].insLines|)
            && |output| + Deletions(chunks) == |input| + Insertions(chunks)
  {
    OnlyOverlapStopsTheApplier(diff, input);
    var chunks := ParseUpdate(diff, input).value.chunks;
    TraceReads(input, chunks, |input|);
    TraceOrdered(chunks, |input|);
    ImageLength(input, chunks, |input|);
    forall o: Origin {
      TraceMembers(chunks, |input|, o);
    }
  }
}
