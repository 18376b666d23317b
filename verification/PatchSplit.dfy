/** Splitting one file's hunks into two patches against the same base. */
module PatchSplit {
  import opened PyText
  import opened Results
  import opened Chunks
  import opened Seqs
  import opened Patches

  // ---------------------------------------------------------------- hunk bodies

  /** Where the line that starts at `index` ends, its newline included. */
  function NextLine(text: string, index: nat): (next: nat)
    requires index <= |text|
    ensures index <= next <= |text| && (index < |text| ==> index < next)
  {
    var end := LineEnd(text, index);
    if end < |text| then end + 1 else end
  }

  /** `_lines`: the lines of the text from `index` on, newlines kept. */
  function LinesFrom(text: string, index: nat): seq<string>
    requires index <= |text|
    decreases |text| - index
  {
    if index == |text| then []
    else [text[index..NextLine(text, index)]] + LinesFrom(text, NextLine(text, index))
  }

  /** `_lines(hunk)[1:]`: everything after the header line. */
  function BodyLines(hunk: string): seq<string> {
    LinesFrom(hunk, NextLine(hunk, 0))
  }

  predicate Begins(line: string, c: char) {
    line != [] && line[0] == c
  }

  /** What body line `k` says without its sign; its newline goes when the next line is Git's
      remark that the file does not end in one. */
  function Content(body: seq<string>, k: nat): string
    requires k < |body| && body[k] != []
  {
    var line := body[k][1..];
    if k + 1 < |body| && Begins(body[k + 1], '\\') && line != [] && line[|line| - 1] == '\n' then line[..|line| - 1] else line
  }

  /** Body line `k` stands on the side with the sign: a context line, or one with that sign. */
  predicate OnSide(body: seq<string>, k: nat, sign: char)
    requires k < |body|
  {
    Begins(body[k], ' ') || Begins(body[k], sign)
  }

  /** One side of a hunk, from body line `k` on. */
  function SideFrom(body: seq<string>, sign: char, k: nat): seq<string>
    requires k <= |body|
    decreases |body| - k
  {
    if k == |body| then []
    else (if OnSide(body, k, sign) then [Content(body, k)] else []) + SideFrom(body, sign, k + 1)
  }

  /** Added and removed lines, as `FilePatch.changed_lines` counts them. */
  function ChangedLines(lines: seq<string>): nat {
    if lines == [] then 0
    else (if Begins(lines[0], '+') || Begins(lines[0], '-') then 1 else 0) + ChangedLines(lines[1..])
  }

  datatype Hunk = Hunk(oldStart: nat, oldCount: nat, newStart: nat, newCount: nat, body: seq<string>) {
    function Before(): seq<string> { SideFrom(body, '-', 0) }

    function After(): seq<string> { SideFrom(body, '+', 0) }

    /** The base lines above the hunk: an empty range starts at the line before it. */
    function Place(): int { if oldCount == 0 then oldStart else oldStart - 1 }

    /** The lines above the hunk in the file after the patch. */
    function Landing(): int { if newCount == 0 then newStart else newStart - 1 }
  }

  function ReadHunk(text: string): Option<Hunk> {
    match HunkRange(text)
    case None => None
    case Some(r) => Some(Hunk(r.oldStart, r.oldCount, r.newStart, r.newCount, BodyLines(text)))
  }

  // ---------------------------------------------------------------- keeping some hunks

  datatype PatchError = MalformedHunkHeader(hunk: string)

  function Rewrite(text: string, r: Range, shift: int): string
    requires r.end <= |text|
  {
    PrintHeader(r.oldStart, r.oldCount, r.newStart - shift, r.newCount) + text[r.end..]
  }

  function Prepend(head: seq<string>, r: Result<seq<string>, PatchError>): Result<seq<string>, PatchError> {
    match r
    case Err(e) => Err(e)
    case Ok(rest) => Ok(head + rest)
  }

  /** From hunk `k` on: the hunks with flag `keep`, each moved up by what the dropped hunks
      before it added. */
  function KeepTexts(texts: seq<string>, flags: seq<bool>, keep: bool, k: nat, shift: int): Result<seq<string>, PatchError>
    requires |texts| == |flags| && k <= |texts|
    decreases |texts| - k
  {
    if k == |texts| then Ok([])
    else
      match HunkRange(texts[k])
      case None => Err(MalformedHunkHeader(texts[k]))
      case Some(r) =>
        if flags[k] != keep then KeepTexts(texts, flags, keep, k + 1, shift + r.newCount - r.oldCount)
        else Prepend([Rewrite(texts[k], r, shift)], KeepTexts(texts, flags, keep, k + 1, shift))
  }

  /** `_keep_hunks`, for the hunks. */
  method KeepHunks(texts: seq<string>, flags: seq<bool>, keep: bool) returns (r: Result<seq<string>, PatchError>)
    requires |texts| == |flags|
    ensures r == KeepTexts(texts, flags, keep, 0, 0)
  {
    hide HunkRange, Rewrite;
    var shift: int := 0;
    var hunks: seq<string> := [];
    ghost var all := KeepTexts(texts, flags, keep, 0, 0);
    assert all.Ok? ==> [] + all.value == all.value;
    for k := 0 to |texts|
      invariant all == Prepend(hunks, KeepTexts(texts, flags, keep, k, shift))
    {
      var range := HunkRange(texts[k]);
      if range.None? { return Err(MalformedHunkHeader(texts[k])); }
      if flags[k] != keep {
        shift := shift + range.value.newCount - range.value.oldCount;
        continue;
      }
      ghost var rest := KeepTexts(texts, flags, keep, k + 1, shift);
      if rest.Ok? { Regroup(hunks, [Rewrite(texts[k], range.value, shift)], rest.value); }
      hunks := hunks + [Rewrite(texts[k], range.value, shift)];
    }
    assert hunks + [] == hunks;
    return Ok(hunks);
  }

  function Keep(hunks: seq<Hunk>, flags: seq<bool>, keep: bool, shift: int): seq<Hunk>
    requires |hunks| == |flags|
  {
    if hunks == [] then []
    else
      var h := hunks[0];
      if flags[0] != keep then Keep(hunks[1..], flags[1..], keep, shift + h.newCount - h.oldCount)
      else
        [MovedUp(h, shift)] + Keep(hunks[1..], flags[1..], keep, shift)
  }

  function MovedUp(h: Hunk, shift: int): Hunk {
    h.(newStart := if h.newStart >= shift then h.newStart - shift else 0)
  }

  lemma KeepCons(h: Hunk, rest: seq<Hunk>, flag: bool, flags: seq<bool>, keep: bool, shift: int)
    requires |rest| == |flags|
    ensures Keep([h] + rest, [flag] + flags, keep, shift)
            == if flag != keep then Keep(rest, flags, keep, shift + h.newCount - h.oldCount)
               else [MovedUp(h, shift)] + Keep(rest, flags, keep, shift)
  {
    assert ([h] + rest)[1..] == rest && ([flag] + flags)[1..] == flags;
  }

  // ---------------------------------------------------------------- what a file patch means

  /** The hunks fit the base from line `from` on, in order; `shift` is what the hunks above
      added, so each new-side start must name the line where the hunk lands. */
  ghost predicate WellFormed(base: seq<string>, hunks: seq<Hunk>, from: nat, shift: int) {
    if hunks == [] then from <= |base|
    else
      var h := hunks[0];
      && h.oldCount == |h.Before()| && h.newCount == |h.After()|
      && from <= h.Place() && LiesAt(base, h.Before(), h.Place())
      && h.Landing() == h.Place() + shift
      && WellFormed(base, hunks[1..], h.Place() + h.oldCount, shift + h.newCount - h.oldCount)
  }

  function AsChunk(h: Hunk): Chunk<string>
    requires h.Place() >= 0
  {
    Chunk(h.Place(), h.Before(), h.After())
  }

  /** The edit a patch makes, hunk by hunk. */
  function AsChunks(hunks: seq<Hunk>): (r: seq<Chunk<string>>)
    requires forall h | h in hunks :: h.Place() >= 0
    ensures |r| == |hunks|
  {
    seq(|hunks|, k requires 0 <= k < |hunks| => AsChunk(hunks[k]))
  }

  lemma {:induction false} WellFormedPlaces(base: seq<string>, hunks: seq<Hunk>, from: nat, shift: int)
    requires WellFormed(base, hunks, from, shift)
    ensures from <= |base| && forall h | h in hunks :: h.Place() >= from
    decreases |hunks|
  {
    hide LiesAt;
    if hunks != [] {
      WellFormedPlaces(base, hunks[1..], hunks[0].Place() + hunks[0].oldCount, shift + hunks[0].newCount - hunks[0].oldCount);
      forall h | h in hunks
        ensures h.Place() >= from
      {
        assert h == hunks[0] || h in hunks[1..];
      }
    }
  }

  /** Dropping hunks leaves a well-formed patch against the same base. */
  lemma {:induction false} KeptIsWellFormed(base: seq<string>, hunks: seq<Hunk>, flags: seq<bool>, keep: bool,
                                            from: nat, shift: int, dropped: int)
    requires |hunks| == |flags| && WellFormed(base, hunks, from, shift)
    requires from + shift - dropped >= 0
    ensures WellFormed(base, Keep(hunks, flags, keep, dropped), from, shift - dropped)
    decreases |hunks|
  {
    hide LiesAt;
    if hunks != [] {
      var h := hunks[0];
      var next, after := h.Place() + h.oldCount, shift + h.newCount - h.oldCount;
      if flags[0] != keep {
        KeptIsWellFormed(base, hunks[1..], flags[1..], keep, next, after, dropped + h.newCount - h.oldCount);
      } else {
        KeptIsWellFormed(base, hunks[1..], flags[1..], keep, next, after, dropped);
        assert Keep(hunks, flags, keep, dropped)[1..] == Keep(hunks[1..], flags[1..], keep, dropped);
      }
    }
  }

  // ---------------------------------------------------------------- what the kept hunks do

  /** The chunks whose flag is `keep`. */
  function Select<T>(chunks: seq<Chunk<T>>, flags: seq<bool>, keep: bool): seq<Chunk<T>>
    requires |chunks| == |flags|
  {
    if chunks == [] then []
    else
      var n := |chunks| - 1;
      Select(chunks[..n], flags[..n], keep) + (if flags[n] == keep then [chunks[n]] else [])
  }

  /** The same edit with every dropped region left as the base has it. */
  function Restored<T>(chunks: seq<Chunk<T>>, flags: seq<bool>, keep: bool): (r: seq<Chunk<T>>)
    requires |chunks| == |flags|
    ensures |r| == |chunks|
  {
    seq(|chunks|, k requires 0 <= k < |chunks| =>
      if flags[k] == keep then chunks[k] else chunks[k].(insLines := chunks[k].delLines))
  }

  lemma {:induction false} SelectPlaced<T>(chunks: seq<Chunk<T>>, flags: seq<bool>, keep: bool, hi: nat)
    requires |chunks| == |flags| && Placed(chunks, 0, hi)
    ensures Placed(Select(chunks, flags, keep), 0, hi)
    decreases |chunks|
  {
    if chunks != [] {
      var n := |chunks| - 1;
      SelectPlaced(chunks[..n], flags[..n], keep, chunks[n].origIndex);
      var kept := Select(chunks[..n], flags[..n], keep);
      if flags[n] == keep {
        assert (kept + [chunks[n]])[..|kept|] == kept;
      } else {
        assert Select(chunks, flags, keep) == kept;
        PlacedWiden(kept, 0, chunks[n].origIndex, hi);
      }
    }
  }

  /** Applying the kept chunks is applying all of them with the dropped regions left alone. */
  lemma {:induction false} DroppedRegionsStay<T>(base: seq<T>, chunks: seq<Chunk<T>>, flags: seq<bool>, keep: bool, upto: nat)
    requires |chunks| == |flags| && Placed(chunks, 0, upto) && upto <= |base|
    requires forall k | 0 <= k < |chunks| :: LiesAt(base, chunks[k].delLines, chunks[k].origIndex)
    ensures Image(base, Select(chunks, flags, keep), upto) == Image(base, Restored(chunks, flags, keep), upto)
    decreases |chunks|
  {
    if chunks != [] {
      var n := |chunks| - 1;
      var init, last := chunks[..n], chunks[n];
      assert forall k | 0 <= k < n :: init[k] == chunks[k];
      assert LiesAt(base, chunks[n].delLines, chunks[n].origIndex);
      var kept, restored := Select(init, flags[..n], keep), Restored(init, flags[..n], keep);
      assert Select(chunks, flags, keep) == kept + (if flags[n] == keep then [last] else []);
      assert Restored(chunks, flags, keep) == restored + [if flags[n] == keep then last else last.(insLines := last.delLines)];
      hide Image, Placed, Select, Restored, LiesAt;
      UnfoldPlaced(chunks, 0, upto);
      DroppedRegionsStay(base, init, flags[..n], keep, last.origIndex);
      SelectPlaced(init, flags[..n], keep, last.origIndex);
      LastRegion(base, kept, restored, last, flags[n] == keep, upto);
    }
  }

  lemma LastRegion<T>(base: seq<T>, kept: seq<Chunk<T>>, restored: seq<Chunk<T>>, last: Chunk<T>, keep: bool, upto: nat)
    requires last.End() <= upto <= |base| && Placed(kept, 0, last.origIndex) && LiesAt(base, last.delLines, last.origIndex)
    requires Image(base, kept, last.origIndex) == Image(base, restored, last.origIndex)
    ensures Image(base, kept + (if keep then [last] else []), upto)
            == Image(base, restored + [if keep then last else last.(insLines := last.delLines)], upto)
  {
    hide Image, Placed, LiesAt;
    if keep {
      ImageAppended(base, kept, last, upto);
      ImageAppended(base, restored, last, upto);
    } else {
      assert kept + [] == kept;
      ImageAppended(base, restored, last.(insLines := last.delLines), upto);
      ImageOverRegion(base, kept, last.delLines, last.origIndex, upto);
    }
  }

  lemma ImageAppended<T>(base: seq<T>, kept: seq<Chunk<T>>, last: Chunk<T>, upto: nat)
    requires last.End() <= upto <= |base|
    ensures Image(base, kept + [last], upto) == Image(base, kept, last.origIndex) + last.insLines + base[last.End()..upto]
  {
    hide Image;
    assert (kept + [last])[..|kept|] == kept;
    ImageLast(base, kept + [last], upto);
  }

  lemma ImageOverRegion<T>(base: seq<T>, kept: seq<Chunk<T>>, region: seq<T>, at: nat, upto: nat)
    requires Placed(kept, 0, at) && LiesAt(base, region, at) && at + |region| <= upto <= |base|
    ensures Image(base, kept, upto) == Image(base, kept, at) + region + base[at + |region|..upto]
  {
    hide Image, Placed, LiesAt;
    ImageExtend(base, kept, at, upto);
    RegionSlice(base, region, at, upto);
    Regroup(Image(base, kept, at), region, base[at + |region|..upto]);
  }

  lemma RegionSlice<T>(base: seq<T>, region: seq<T>, at: nat, upto: nat)
    requires LiesAt(base, region, at) && at + |region| <= upto <= |base|
    ensures base[at..upto] == region + base[at + |region|..upto]
  {
    LiesAtSlice(base, region, at, 0, |region|);
  }

  lemma {:induction false} SelectSnoc<T>(chunks: seq<Chunk<T>>, flags: seq<bool>, keep: bool)
    requires |chunks| == |flags| > 0
    ensures Select(chunks, flags, keep) == (if flags[0] == keep then [chunks[0]] else []) + Select(chunks[1..], flags[1..], keep)
    decreases |chunks|
  {
    var n := |chunks| - 1;
    if n > 0 {
      assert chunks[..n][0] == chunks[0] && chunks[1..][..n - 1] == chunks[..n][1..] && flags[1..][..n - 1] == flags[..n][1..];
      SelectSnoc(chunks[..n], flags[..n], keep);
    }
  }

  lemma SelectNone<T>(flags: seq<bool>, keep: bool)
    requires flags == []
    ensures Select<T>([], flags, keep) == []
  {}

  /** The header numbers change, the edit does not: the kept hunks are the selected chunks. */
  lemma {:induction false} KeptSelects(hunks: seq<Hunk>, flags: seq<bool>, keep: bool, dropped: int)
    requires |hunks| == |flags| && forall h | h in hunks :: h.Place() >= 0
    ensures forall h | h in Keep(hunks, flags, keep, dropped) :: h.Place() >= 0
    ensures AsChunks(Keep(hunks, flags, keep, dropped)) == Select(AsChunks(hunks), flags, keep)
    decreases |hunks|
  {
    hide SideFrom, Select;
    if hunks == [] {
      SelectNone<string>(flags, keep);
    } else {
      var h, rest := hunks[0], hunks[1..];
      var d := if flags[0] != keep then dropped + h.newCount - h.oldCount else dropped;
      assert h in hunks && forall g | g in rest :: g in hunks;
      KeptSelects(rest, flags[1..], keep, d);
      var chunks := AsChunks(hunks);
      assert chunks[1..] == AsChunks(rest);
      SelectSnoc(chunks, flags, keep);
      var kept := Keep(rest, flags[1..], keep, d);
      if flags[0] == keep {
        var first := Keep(hunks, flags, keep, dropped)[0];
        assert Keep(hunks, flags, keep, dropped) == [first] + kept;
        assert AsChunk(first) == chunks[0];
        assert AsChunks([first] + kept) == [AsChunk(first)] + AsChunks(kept);
      }
    }
  }

  // ---------------------------------------------------------------- from hunk texts to hunks

  /** `rest` is what the text holds from `at` on. */
  ghost predicate Tail(text: string, at: nat, rest: string) {
    |text| == at + |rest| && forall k | at <= k < |text| :: text[k] == rest[k - at]
  }

  lemma TailOf(head: string, rest: string)
    ensures Tail(head + rest, |head|, rest)
  {}

  lemma {:induction false} LineEndShift(text: string, at: nat, rest: string, index: nat)
    requires Tail(text, at, rest) && index <= |rest|
    ensures LineEnd(text, at + index) == at + LineEnd(rest, index)
    decreases |rest| - index
  {
    if index < |rest| && rest[index] != '\n' { LineEndShift(text, at, rest, index + 1); }
  }

  lemma NextLineShift(text: string, at: nat, rest: string, index: nat)
    requires Tail(text, at, rest) && index <= |rest|
    ensures NextLine(text, at + index) == at + NextLine(rest, index)
  {
    LineEndShift(text, at, rest, index);
  }

  lemma TailSlice(text: string, at: nat, rest: string, lo: nat, hi: nat)
    requires Tail(text, at, rest) && lo <= hi <= |rest|
    ensures at + hi <= |text| && text[at + lo..at + hi] == rest[lo..hi]
  {}

  lemma {:induction false} LinesShift(text: string, at: nat, rest: string, index: nat)
    requires Tail(text, at, rest) && index <= |rest|
    ensures at + index <= |text| && LinesFrom(text, at + index) == LinesFrom(rest, index)
    decreases |rest| - index
  {
    hide LinesFrom, Tail, NextLine, LineEnd;
    TailLength(text, at, rest);
    if index == |rest| {
      LinesEnd(rest);
      LinesEnd(text);
    } else {
      NextLineShift(text, at, rest, index);
      TailSlice(text, at, rest, index, NextLine(rest, index));
      LinesCons(rest, index);
      LinesCons(text, at + index);
      LinesShift(text, at, rest, NextLine(rest, index));
    }
  }

  lemma TailLength(text: string, at: nat, rest: string)
    requires Tail(text, at, rest)
    ensures |text| == at + |rest|
  {}

  lemma LinesEnd(text: string)
    ensures LinesFrom(text, |text|) == []
  {}

  lemma LinesCons(text: string, index: nat)
    requires index < |text|
    ensures LinesFrom(text, index) == [text[index..NextLine(text, index)]] + LinesFrom(text, NextLine(text, index))
  {}

  /** The body of a hunk depends only on what follows its header. */
  lemma BodyAfterHeader(head: string, rest: string)
    requires NoNewline(head + rest, 0, |head|)
    ensures BodyLines(head + rest) == LinesFrom(rest, NextLine(rest, 0))
  {
    hide LinesFrom, LineEnd, Tail;
    TailOf(head, rest);
    NextLineShift(head + rest, |head|, rest, 0);
    LinesShift(head + rest, |head|, rest, NextLine(rest, 0));
  }

  lemma NewHeaderReads(front: string, head: string, rest: string, r: Range, r': Range)
    requires HunkRange(front + rest) == Some(r) && |front| == r.end
    requires HunkRange(head + rest) == Some(r') && |head| == r'.end
    ensures ReadHunk(front + rest).Some?
    ensures ReadHunk(head + rest) ==
            Some(Hunk(r'.oldStart, r'.oldCount, r'.newStart, r'.newCount, ReadHunk(front + rest).value.body))
  {
    hide BodyLines, LinesFrom, NoNewline, LineEnd, NextLine;
    HeaderHasNoNewline(front + rest);
    HeaderHasNoNewline(head + rest);
    hide HunkRange;
    BodyAfterHeader(head, rest);
    BodyAfterHeader(front, rest);
  }

  /** A rewritten hunk reads as the same hunk with its new-side start moved. */
  lemma RewriteReads(text: string, r: Range, shift: int)
    requires HunkRange(text) == Some(r) && r.newStart >= shift
    ensures ReadHunk(text).Some?
    ensures ReadHunk(Rewrite(text, r, shift)) == Some(ReadHunk(text).value.(newStart := r.newStart - shift))
  {
    hide BodyLines, PrintHeader, HunkRange, ReadHunk;
    ReadsRangeOf(text);
    var rest, head := text[r.end..], PrintHeader(r.oldStart, r.oldCount, r.newStart - shift, r.newCount);
    var front := Cut(text, r.end);
    HeaderRoundTrip(r.oldStart, r.oldCount, r.newStart - shift, r.newCount, rest);
    NewHeaderReads(front, head, rest, r, Range(r.oldStart, r.oldCount, r.newStart - shift, r.newCount, |head|));
  }

  predicate AllRead(texts: seq<string>) {
    forall k | 0 <= k < |texts| :: ReadHunk(texts[k]).Some?
  }

  function Hunks(texts: seq<string>): (r: seq<Hunk>)
    requires AllRead(texts)
    ensures |r| == |texts|
  {
    seq(|texts|, k requires 0 <= k < |texts| => ReadHunk(texts[k]).value)
  }

  lemma {:induction false} KeepTextsReads(base: seq<string>, texts: seq<string>, flags: seq<bool>, keep: bool,
                                          k: nat, from: nat, shift: int, dropped: int)
    requires |texts| == |flags| && k <= |texts| && AllRead(texts)
    requires WellFormed(base, Hunks(texts)[k..], from, shift) && from + shift - dropped >= 0
    ensures KeepTexts(texts, flags, keep, k, dropped).Ok?
    ensures var kept := KeepTexts(texts, flags, keep, k, dropped).value;
            AllRead(kept) && Hunks(kept) == Keep(Hunks(texts)[k..], flags[k..], keep, dropped)
    decreases |texts| - k
  {
    hide LiesAt, ReadHunk, HunkRange, Rewrite;
    if k < |texts| {
      var hunks := Hunks(texts)[k..];
      var h := hunks[0];
      assert h == ReadHunk(texts[k]).value && hunks[1..] == Hunks(texts)[k + 1..] && flags[k..][1..] == flags[k + 1..];
      ReadsRangeOf(texts[k]);
      var r := HunkRange(texts[k]).value;
      var next, after := h.Place() + h.oldCount, shift + h.newCount - h.oldCount;
      if flags[k] != keep {
        KeepTextsReads(base, texts, flags, keep, k + 1, next, after, dropped + r.newCount - r.oldCount);
      } else {
        KeepTextsReads(base, texts, flags, keep, k + 1, next, after, dropped);
        RewriteReads(texts[k], r, dropped);
        var rest := KeepTexts(texts, flags, keep, k + 1, dropped).value;
        assert Hunks([Rewrite(texts[k], r, dropped)] + rest) == [h.(newStart := r.newStart - dropped)] + Hunks(rest);
      }
    }
  }

  lemma ReadsRangeOf(text: string)
    requires ReadHunk(text).Some? || HunkRange(text).Some?
    ensures ReadHunk(text).Some? && HunkRange(text).Some?
    ensures var (h, r) := (ReadHunk(text).value, HunkRange(text).value);
            && h.oldStart == r.oldStart && h.oldCount == r.oldCount && h.newStart == r.newStart && h.newCount == r.newCount
  {}

  // ---------------------------------------------------------------- the two patches of a split

  lemma {:induction false} WellFormedPlaced(base: seq<string>, hunks: seq<Hunk>, from: nat, shift: int)
    requires WellFormed(base, hunks, from, shift)
    ensures forall h | h in hunks :: h.Place() >= 0
    ensures Placed(AsChunks(hunks), from, |base|)
    ensures forall k | 0 <= k < |hunks| :: LiesAt(base, AsChunks(hunks)[k].delLines, AsChunks(hunks)[k].origIndex)
    decreases |hunks|
  {
    hide LiesAt;
    WellFormedPlaces(base, hunks, from, shift);
    if hunks != [] {
      var h := hunks[0];
      WellFormedPlaced(base, hunks[1..], h.Place() + h.oldCount, shift + h.newCount - h.oldCount);
      assert AsChunks(hunks)[1..] == AsChunks(hunks[1..]);
      PlacedCons(AsChunks(hunks), from, |base|);
      forall k | 0 <= k < |hunks|
        ensures LiesAt(base, AsChunks(hunks)[k].delLines, AsChunks(hunks)[k].origIndex)
      {
        if k > 0 { assert AsChunks(hunks)[k] == AsChunks(hunks[1..])[k - 1]; }
      }
    }
  }

  /** What the first `i` hunks add to the file. */
  function Growth(hunks: seq<Hunk>, i: nat): int
    requires i <= |hunks|
  {
    if i == 0 then 0 else Growth(hunks, i - 1) + hunks[i - 1].newCount - hunks[i - 1].oldCount
  }

  lemma {:induction false} GrowthCons(hunks: seq<Hunk>, i: nat)
    requires 0 < i <= |hunks|
    ensures Growth(hunks, i) == hunks[0].newCount - hunks[0].oldCount + Growth(hunks[1..], i - 1)
    decreases i
  {
    if i > 1 { GrowthCons(hunks, i - 1); }
  }

  lemma {:induction false} LandingAt(base: seq<string>, hunks: seq<Hunk>, from: nat, shift: int, i: nat)
    requires WellFormed(base, hunks, from, shift) && i < |hunks|
    ensures hunks[i].Landing() == hunks[i].Place() + shift + Growth(hunks, i)
    ensures hunks[i].oldCount == |hunks[i].Before()| && hunks[i].newCount == |hunks[i].After()|
    decreases i
  {
    hide LiesAt;
    if i > 0 {
      var h := hunks[0];
      LandingAt(base, hunks[1..], h.Place() + h.oldCount, shift + h.newCount - h.oldCount, i - 1);
      GrowthCons(hunks, i);
    }
  }

  lemma {:induction false} GrowthIsNetInsertions(base: seq<string>, hunks: seq<Hunk>, i: nat)
    requires WellFormed(base, hunks, 0, 0) && i <= |hunks|
    requires forall h | h in hunks :: h.Place() >= 0
    ensures Growth(hunks, i) == Insertions(AsChunks(hunks)[..i]) - Deletions(AsChunks(hunks)[..i])
    decreases i
  {
    hide WellFormed;
    if i > 0 {
      GrowthIsNetInsertions(base, hunks, i - 1);
      LandingAt(base, hunks, 0, 0, i - 1);
      assert AsChunks(hunks)[..i][..i - 1] == AsChunks(hunks)[..i - 1];
    }
  }

  /** Every hunk of a well-formed patch lands at the line its new-side start names. */
  lemma HunksLand(base: seq<string>, hunks: seq<Hunk>, i: nat)
    requires WellFormed(base, hunks, 0, 0) && i < |hunks|
    ensures forall h | h in hunks :: h.Place() >= 0
    ensures hunks[i].Landing() == |Image(base, AsChunks(hunks)[..i], hunks[i].Place())|
    ensures LiesAt(Image(base, AsChunks(hunks), |base|), hunks[i].After(), hunks[i].Landing())
  {
    WellFormedPlaced(base, hunks, 0, 0);
    LandingAt(base, hunks, 0, 0, i);
    GrowthIsNetInsertions(base, hunks, i);
    hide WellFormed, LiesAt;
    var chunks := AsChunks(hunks);
    ChunkLands(base, chunks, |base|, i);
    PlacedBetween(chunks, 0, |base|, i);
    PlacedPrefix(chunks, 0, |base|, i);
    ImageLength(base, chunks[..i], chunks[i].origIndex);
  }

  function Changed(hunks: seq<Hunk>): nat {
    if hunks == [] then 0 else ChangedLines(hunks[0].body) + Changed(hunks[1..])
  }

  /** The hunks apart from where their new sides start. */
  function Edits(hunks: seq<Hunk>): (r: seq<Hunk>)
    ensures |r| == |hunks|
  {
    seq(|hunks|, k requires 0 <= k < |hunks| => hunks[k].(newStart := 0))
  }

  /** Each hunk is in exactly one of the two patches, with nothing but its new-side start changed,
      and so is each changed line. */
  ghost predicate Partition(a: seq<Hunk>, b: seq<Hunk>, whole: seq<Hunk>) {
    && multiset(Edits(a)) + multiset(Edits(b)) == multiset(Edits(whole))
    && |a| + |b| == |whole|
    && Changed(a) + Changed(b) == Changed(whole)
  }

  lemma OneHunkMore(h: Hunk, moved: Hunk, a: seq<Hunk>, b: seq<Hunk>, whole: seq<Hunk>)
    requires Partition(a, b, whole) && moved.(newStart := 0) == h.(newStart := 0)
    ensures Partition([moved] + a, b, [h] + whole) && Partition(b, [moved] + a, [h] + whole)
  {
    hide ChangedLines;
    assert Edits([h] + whole) == [h.(newStart := 0)] + Edits(whole);
    assert Edits([moved] + a) == [h.(newStart := 0)] + Edits(a);
    assert ([h] + whole)[1..] == whole && ([moved] + a)[1..] == a;
  }

  lemma NothingPartitions(hunks: seq<Hunk>)
    requires hunks == []
    ensures Partition([], [], hunks)
  {}

  lemma PartitionSwaps(a: seq<Hunk>, b: seq<Hunk>, whole: seq<Hunk>)
    requires Partition(a, b, whole)
    ensures Partition(b, a, whole)
  {}

  lemma {:induction false} SplitPartitions(hunks: seq<Hunk>, flags: seq<bool>, d: int, e: int)
    requires |hunks| == |flags|
    ensures Partition(Keep(hunks, flags, true, d), Keep(hunks, flags, false, e), hunks)
    decreases |hunks|
  {
    hide Partition;
    if hunks == [] {
      NothingPartitions(hunks);
    } else {
      hide Keep;
      var h, rest, flag, others := hunks[0], hunks[1..], flags[0], flags[1..];
      var growth := h.newCount - h.oldCount;
      assert [h] + rest == hunks && [flag] + others == flags;
      KeepCons(h, rest, flag, others, true, d);
      KeepCons(h, rest, flag, others, false, e);
      if flag {
        SplitPartitions(rest, others, d, e + growth);
        OneHunkMore(h, MovedUp(h, d), Keep(rest, others, true, d), Keep(rest, others, false, e + growth), rest);
      } else {
        SplitPartitions(rest, others, d + growth, e);
        PartitionSwaps(Keep(rest, others, true, d + growth), Keep(rest, others, false, e), rest);
        OneHunkMore(h, MovedUp(h, e), Keep(rest, others, false, e), Keep(rest, others, true, d + growth), rest);
      }
    }
  }

  /** One side of a split: a well-formed patch against the same base whose application gives
      the post-image in the kept regions and the base everywhere else, and whose hunks land
      where their rewritten headers say. */
  lemma SplitSide(base: seq<string>, texts: seq<string>, flags: seq<bool>, keep: bool)
    requires |texts| == |flags| && AllRead(texts) && WellFormed(base, Hunks(texts), 0, 0)
    ensures KeepTexts(texts, flags, keep, 0, 0).Ok?
    ensures var kept := KeepTexts(texts, flags, keep, 0, 0).value;
            && AllRead(kept) && WellFormed(base, Hunks(kept), 0, 0)
            && (forall h | h in Hunks(texts) + Hunks(kept) :: h.Place() >= 0)
            && var result := Image(base, AsChunks(Hunks(kept)), |base|);
            && result == Image(base, Restored(AsChunks(Hunks(texts)), flags, keep), |base|)
            && forall i | 0 <= i < |kept| ::
                 Hunks(kept)[i].Landing() >= 0 && LiesAt(result, Hunks(kept)[i].After(), Hunks(kept)[i].Landing())
  {
    hide LiesAt, ReadHunk, Image, Select, Restored, WellFormed, Keep, KeepTexts, AllRead, HunkRange, Placed;
    var hunks := Hunks(texts);
    assert hunks[0..] == hunks && flags[0..] == flags;
    KeepTextsReads(base, texts, flags, keep, 0, 0, 0, 0);
    var kept := KeepTexts(texts, flags, keep, 0, 0).value;
    KeptIsWellFormed(base, hunks, flags, keep, 0, 0, 0);
    WellFormedPlaced(base, hunks, 0, 0);
    WellFormedPlaced(base, Hunks(kept), 0, 0);
    KeptSelects(hunks, flags, keep, 0);
    DroppedRegionsStay(base, AsChunks(hunks), flags, keep, |base|);
    forall i | 0 <= i < |kept|
      ensures Hunks(kept)[i].Landing() >= 0
      ensures LiesAt(Image(base, AsChunks(Hunks(kept)), |base|), Hunks(kept)[i].After(), Hunks(kept)[i].Landing())
    {
      HunksLand(base, Hunks(kept), i);
    }
  }
}
