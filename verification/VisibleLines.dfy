/** What the Markdown scanner shows of a text, told from its comments and its lines. */
module VisibleLines {
  import opened PyText
  import opened Results
  import opened Seqs
  import opened Markdown

  // ---------------------------------------------------------------- comments

  predicate NoOpenerIn(text: string, from: nat, to: nat) {
    forall k | from <= k < to :: !StartsWithAt(text, OPENER, k)
  }

  predicate NoCloserIn(text: string, from: nat, to: nat) {
    forall k | from <= k < to :: !StartsWithAt(text, CLOSER, k)
  }

  /** `text[from..to]` is a comment: it ends just behind its first closer; without one, it reaches
      the end of the text, or the newline that ends the text. */
  predicate Comment(text: string, from: nat, to: nat) {
    && from + 4 <= to <= |text| && StartsWithAt(text, OPENER, from)
    && ((from + 7 <= to && StartsWithAt(text, CLOSER, to - 3) && NoCloserIn(text, from + 4, to - 3))
        || (NoCloserIn(text, from + 4, |text|) && to == LastEnd(text)))
  }

  /** The comments from `index` on: no opener stands between them. */
  predicate Comments(text: string, index: nat, spans: seq<(nat, nat)>)
    decreases |spans|
  {
    if spans == [] then index <= |text| && NoOpenerIn(text, index, |text|)
    else
      var (from, to) := spans[0];
      index <= from && NoOpenerIn(text, index, from) && Comment(text, from, to) && Comments(text, to, spans[1..])
  }

  /** The text from `index` on with the spans cut out. */
  function CutOut(text: string, index: nat, spans: seq<(nat, nat)>): string
    requires Comments(text, index, spans)
    decreases |spans|
  {
    if spans == [] then text[index..]
    else text[index..spans[0].0] + CutOut(text, spans[0].1, spans[1..])
  }

  /** Where a comment without closer ends. */
  function LastEnd(text: string): nat
    requires text != ""
  {
    if text[|text| - 1] == '\n' then |text| - 1 else |text|
  }

  lemma UnclosedIsLast(text: string, from: nat)
    requires StartsWithAt(text, OPENER, from) && text != "" && NoCloserIn(text, from + 4, |text|)
    ensures var spans := [(from, LastEnd(text))];
            && Comments(text, from, spans)
            && CutOut(text, from, spans) == if text[|text| - 1] == '\n' then "\n" else ""
  {
    OpenerIs(text, from);
    forall k | LastEnd(text) <= k < |text|
      ensures !StartsWithAt(text, OPENER, k)
    {
      OpenerIs(text, k);
    }
    var spans := [(from, LastEnd(text))];
    assert spans[1..] == [] && Comments(text, LastEnd(text), []);
    assert text[from..from] == "";
  }

  lemma ClosedIsFirst(text: string, from: nat, closer: nat, rest: seq<(nat, nat)>)
    requires StartsWithAt(text, OPENER, from) && from + 4 <= closer <= |text| - 3
    requires StartsWithAt(text, CLOSER, closer) && NoCloserIn(text, from + 4, closer) && Comments(text, closer + 3, rest)
    ensures var spans := [(from, closer + 3)] + rest;
            Comments(text, from, spans) && CutOut(text, from, spans) == CutOut(text, closer + 3, rest)
  {
    hide StartsWithAt;
    var spans := [(from, closer + 3)] + rest;
    assert spans[1..] == rest;
    assert text[from..from] == "";
  }

  lemma OneLater(text: string, index: nat, spans: seq<(nat, nat)>)
    requires index < |text| && !StartsWithAt(text, OPENER, index) && Comments(text, index + 1, spans)
    ensures Comments(text, index, spans) && CutOut(text, index, spans) == [text[index]] + CutOut(text, index + 1, spans)
  {
    hide StartsWithAt;
    if spans == [] {
      assert text[index..] == [text[index]] + text[index + 1..];
    } else {
      var from := spans[0].0;
      assert text[index..from] == [text[index]] + text[index + 1..from];
      Regroup([text[index]], text[index + 1..from], CutOut(text, spans[0].1, spans[1..]));
    }
  }

  /** What the scan removes is the text's comments. */
  lemma {:induction false} CommentsAreRemoved(text: string, index: nat) returns (spans: seq<(nat, nat)>)
    requires index <= |text|
    ensures Comments(text, index, spans) && WithoutComments(text, index) == CutOut(text, index, spans)
    decreases |text| - index
  {
    hide StartsWithAt, Find, Comments, CutOut, LastEnd;
    if index == |text| {
      spans := [];
      NothingLeft(text);
    } else if !StartsWithAt(text, OPENER, index) {
      spans := CommentsAreRemoved(text, index + 1);
      OneLater(text, index, spans);
    } else {
      var found := Find(text, CLOSER, index + 4);
      if found.Some? {
        var rest := CommentsAreRemoved(text, found.value + 3);
        ClosedIsFirst(text, index, found.value, rest);
        spans := [(index, found.value + 3)] + rest;
      } else {
        UnclosedIsLast(text, index);
        spans := [(index, LastEnd(text))];
      }
    }
  }

  lemma NothingLeft(text: string)
    ensures Comments(text, |text|, []) && CutOut(text, |text|, []) == ""
  {}

  lemma CommentIsUnique(text: string, from: nat, to: nat, other: nat)
    requires Comment(text, from, to) && Comment(text, from, other)
    ensures to == other
  {
    hide StartsWithAt;
    if from + 7 <= to && StartsWithAt(text, CLOSER, to - 3) && NoCloserIn(text, from + 4, to - 3) {
      if from + 7 <= other && StartsWithAt(text, CLOSER, other - 3) && NoCloserIn(text, from + 4, other - 3) {}
    }
  }

  /** A text has one reading. */
  lemma {:induction false} CommentsAreUnique(text: string, index: nat, a: seq<(nat, nat)>, b: seq<(nat, nat)>)
    requires Comments(text, index, a) && Comments(text, index, b)
    ensures a == b
    decreases |a|
  {
    hide StartsWithAt;
    if a != [] && b != [] {
      assert a[0].0 == b[0].0;
      CommentIsUnique(text, a[0].0, a[0].1, b[0].1);
      hide Comment;
      CommentsAreUnique(text, a[0].1, a[1..], b[1..]);
      assert a == [a[0]] + a[1..] && b == [b[0]] + b[1..];
    }
  }

  // ---------------------------------------------------------------- lines

  /** `text.splitlines(keepends=True)`, from `index` on. */
  function Lines(text: string, index: nat): seq<string>
    decreases |text| - index
  {
    if index >= |text| then [] else [text[index..NextStart(text, index)]] + Lines(text, NextStart(text, index))
  }

  function Joined(parts: seq<string>): string {
    if parts == [] then "" else parts[0] + Joined(parts[1..])
  }

  /** Newline, vertical tab, form feed, carriage return; file, group and record separator; next
      line; line and paragraph separator. */
  predicate EndsALine(c: char) {
    || c == '\U{A}' || c == '\U{B}' || c == '\U{C}' || c == '\U{D}' || c == '\U{1C}' || c == '\U{1D}' || c == '\U{1E}'
    || c == '\U{85}' || c == '\U{2028}' || c == '\U{2029}'
  }

  lemma BreaksEndLines()
    ensures forall c :: EndsALine(c) <==> IsBreak(c)
  {}

  /** Content without line breaks, then one break, where carriage return and newline are one. */
  predicate BreaksAt(line: string, stop: nat) {
    && stop < |line| && (forall k | 0 <= k < stop :: !EndsALine(line[k])) && EndsALine(line[stop])
    && (stop + 1 == |line| || (stop + 2 == |line| && line[stop] == '\r' && line[stop + 1] == '\n'))
  }

  predicate IsLine(line: string) {
    exists stop: nat | stop < |line| :: BreaksAt(line, stop)
  }

  predicate IsLastLine(line: string) {
    line != "" && forall k | 0 <= k < |line| :: !EndsALine(line[k])
  }

  /** The lines make the text; all but the last end with a break, and no break is torn apart. */
  lemma {:induction false} LinesMakeTheText(text: string, index: nat)
    requires index <= |text|
    ensures Joined(Lines(text, index)) == text[index..]
    ensures forall k | 0 <= k < |Lines(text, index)| ::
              IsLine(Lines(text, index)[k]) || (k == |Lines(text, index)| - 1 && IsLastLine(Lines(text, index)[k]))
    decreases |text| - index
  {
    hide IsBreak, IsLine, IsLastLine;
    if index < |text| {
      var next := NextStart(text, index);
      LineIsLine(text, index);
      hide NextStart;
      LinesMakeTheText(text, next);
      assert text[index..next] + text[next..] == text[index..];
    }
  }

  lemma LineIsLine(text: string, index: nat)
    requires index < |text|
    ensures var line := text[index..NextStart(text, index)]; IsLine(line) || (NextStart(text, index) == |text| && IsLastLine(line))
  {
    hide EndsALine, IsBreak;
    BreaksEndLines();
    var stop, next := LineStop(text, index), NextStart(text, index);
    var line := text[index..next];
    if stop < |text| {
      assert line[stop - index] == text[stop];
      if next == stop + 2 { assert line[stop - index + 1] == text[stop + 1]; }
      assert BreaksAt(line, stop - index);
    }
  }

  /** A carriage return that ends a line is not followed by a newline. */
  lemma BreaksStayWhole(text: string, index: nat)
    requires index < |text| && text[NextStart(text, index) - 1] == '\r'
    ensures NextStart(text, index) < |text| ==> text[NextStart(text, index)] != '\n'
  {}

  // ---------------------------------------------------------------- fence lines

  /** The line starts with at most three blanks and a run of at least three backquotes or tildes;
      the tail is the rest of it. */
  predicate ReadsMarker(line: string, indent: nat, m: Marker) {
    var end := indent + m.fence.length;
    && indent <= 3 && m.fence.length >= 3 && end <= |line|
    && (forall k | 0 <= k < indent :: line[k] == ' ' || line[k] == '\t')
    && (m.fence.c == '`' || m.fence.c == '~') && (forall k | indent <= k < end :: line[k] == m.fence.c)
    && (end < |line| ==> line[end] != m.fence.c)
    && (line[end..] == m.tail + "\n" || (line[end..] == m.tail && (m.tail == "" || m.tail[|m.tail| - 1] != '\n')))
  }

  lemma {:induction false} RunIsMaximal(text: string, index: nat, c: char)
    requires index <= |text|
    ensures var end := index + Run(text, index, c);
            (forall k | index <= k < end :: text[k] == c) && (end < |text| ==> text[end] != c)
    decreases |text| - index
  {
    if index < |text| && text[index] == c { RunIsMaximal(text, index + 1, c); }
  }

  lemma TailIs(rest: string, tail: string)
    ensures WithoutNewline(rest) == tail <==> rest == tail + "\n" || (rest == tail && (tail == "" || tail[|tail| - 1] != '\n'))
  {
    if rest != "" && rest[|rest| - 1] == '\n' { assert rest == rest[..|rest| - 1] + "\n"; }
    if rest == tail + "\n" { assert rest[..|rest| - 1] == tail; }
  }

  lemma IndentIs(line: string, indent: nat)
    requires indent <= 3 && indent < |line| && (forall k | 0 <= k < indent :: line[k] == ' ' || line[k] == '\t')
    requires line[indent] != ' ' && line[indent] != '\t'
    ensures Indent(line) == indent
  {}

  lemma MarkerIsRead(line: string, m: Marker)
    requires MarkerOf(line) == Some(m)
    ensures ReadsMarker(line, Indent(line), m)
  {
    hide Run, WithoutNewline;
    var at := Indent(line);
    assert forall k | 0 <= k < at :: line[k] == ' ' || line[k] == '\t';
    RunIsMaximal(line, at, line[at]);
    TailIs(line[at + m.fence.length..], m.tail);
  }

  lemma ReadMarkerIs(line: string, indent: nat, m: Marker)
    requires ReadsMarker(line, indent, m)
    ensures MarkerOf(line) == Some(m)
  {
    hide Run, WithoutNewline, Indent;
    assert line[indent] == m.fence.c;
    IndentIs(line, indent);
    RunIsMaximal(line, indent, m.fence.c);
    TailIs(line[indent + m.fence.length..], m.tail);
  }

  /** What the regex for fence lines matches. */
  lemma MarkerExactly(line: string, m: Marker)
    ensures MarkerOf(line) == Some(m) <==> exists indent: nat :: ReadsMarker(line, indent, m)
  {
    hide MarkerOf, ReadsMarker;
    if MarkerOf(line) == Some(m) { MarkerIsRead(line, m); }
    forall indent: nat | ReadsMarker(line, indent, m)
      ensures MarkerOf(line) == Some(m)
    {
      ReadMarkerIs(line, indent, m);
    }
  }

  // ---------------------------------------------------------------- fenced lines

  predicate ClosesFenceOf(line: string, opener: string) {
    MarkerOf(line).Some? && MarkerOf(opener).Some? && Closes(MarkerOf(line).value, MarkerOf(opener).value.fence)
  }

  /** Line `m` opens a fence that is still open before line `k`. */
  ghost predicate OpenSince(lines: seq<string>, m: nat, k: nat)
    requires k <= |lines|
    decreases k, 0
  {
    m < k && MarkerOf(lines[m]).Some? && !Fenced(lines, m) && forall j | m < j < k :: !ClosesFenceOf(lines[j], lines[m])
  }

  /** Line `k` stands in a fence: an earlier fence line, itself in none, has not been closed. */
  ghost predicate Fenced(lines: seq<string>, k: nat)
    requires k <= |lines|
    decreases k
  {
    exists m: nat :: m < k && OpenSince(lines, m, k)
  }

  /** The scanner's state before line `k`. */
  function FenceBefore(lines: seq<string>, k: nat): Option<Fence>
    requires k <= |lines|
  {
    if k == 0 then None else AfterLine(FenceBefore(lines, k - 1), lines[k - 1])
  }

  ghost predicate Since(lines: seq<string>, k: nat, fence: Option<Fence>)
    requires k <= |lines|
  {
    if fence.None? then !Fenced(lines, k)
    else exists m: nat :: m < k && OpenSince(lines, m, k) && MarkerOf(lines[m]).Some? && MarkerOf(lines[m]).value.fence == fence.value
  }

  lemma OpenLater(lines: seq<string>, m: nat, k: nat)
    requires m < k < |lines|
    ensures OpenSince(lines, m, k + 1) <==> OpenSince(lines, m, k) && !ClosesFenceOf(lines[k], lines[m])
  {
    hide MarkerOf, ClosesFenceOf, Fenced;
  }

  /** Two lines cannot both have opened the fence that is open. */
  lemma OneIsOpen(lines: seq<string>, k: nat, m: nat, n: nat)
    requires m < n < k <= |lines| && OpenSince(lines, m, k)
    ensures !OpenSince(lines, n, k)
  {
    hide MarkerOf, ClosesFenceOf;
    assert OpenSince(lines, m, n);
  }

  lemma {:induction false} FenceBeforeExactly(lines: seq<string>, k: nat)
    requires k <= |lines|
    ensures Since(lines, k, FenceBefore(lines, k)) && (FenceBefore(lines, k).Some? <==> Fenced(lines, k))
  {
    hide MarkerOf, Closes, OpenSince, Fenced, Since;
    NoneBeforeTheFirst(lines);
    if k > 0 {
      FenceBeforeExactly(lines, k - 1);
      NextFence(lines, k - 1, FenceBefore(lines, k - 1));
    }
  }

  lemma NoneBeforeTheFirst(lines: seq<string>)
    ensures Since(lines, 0, None) && !Fenced(lines, 0)
  {}

  lemma NextFence(lines: seq<string>, k: nat, before: Option<Fence>)
    requires k < |lines| && Since(lines, k, before) && (before.Some? <==> Fenced(lines, k))
    ensures var after := AfterLine(before, lines[k]); Since(lines, k + 1, after) && (after.Some? <==> Fenced(lines, k + 1))
  {
    hide MarkerOf, Closes, OpenSince, Fenced;
    OpenHere(lines, k);
    if before.None? {
      if MarkerOf(lines[k]).Some? { StillOpen(lines, k, k + 1); } else { NothingOpens(lines, k); }
    } else {
      var m: nat :| m < k && OpenSince(lines, m, k) && MarkerOf(lines[m]).Some? && MarkerOf(lines[m]).value.fence == before.value;
      OpenLater(lines, m, k);
      if ClosesFenceOf(lines[k], lines[m]) {
        CloserCloses(lines, m, k);
        assert AfterLine(before, lines[k]) == None;
      } else {
        StillOpen(lines, m, k + 1);
        assert AfterLine(before, lines[k]) == before;
      }
    }
  }

  lemma StillOpen(lines: seq<string>, m: nat, k: nat)
    requires m < k <= |lines| && OpenSince(lines, m, k)
    ensures Fenced(lines, k)
  {}

  lemma NothingOpens(lines: seq<string>, k: nat)
    requires k < |lines| && !Fenced(lines, k) && MarkerOf(lines[k]).None?
    ensures !Fenced(lines, k + 1)
  {
    hide MarkerOf, OpenSince;
    OpenHere(lines, k);
    if Fenced(lines, k + 1) {
      var m: nat :| m < k + 1 && OpenSince(lines, m, k + 1);
      if m < k { OpenLater(lines, m, k); }
    }
  }

  lemma CloserCloses(lines: seq<string>, m: nat, k: nat)
    requires m < k < |lines| && OpenSince(lines, m, k) && ClosesFenceOf(lines[k], lines[m])
    ensures !Fenced(lines, k + 1)
  {
    hide MarkerOf, ClosesFenceOf, OpenSince;
    OpenHere(lines, k);
    OnlyOpener(lines, k, m);
    if Fenced(lines, k + 1) {
      var n: nat :| n < k + 1 && OpenSince(lines, n, k + 1);
      if n < k { OpenLater(lines, n, k); }
    }
  }

  lemma OpenHere(lines: seq<string>, k: nat)
    requires k < |lines|
    ensures OpenSince(lines, k, k + 1) <==> MarkerOf(lines[k]).Some? && !Fenced(lines, k)
  {}

  lemma OnlyOpener(lines: seq<string>, k: nat, m: nat)
    requires m < k <= |lines| && OpenSince(lines, m, k)
    ensures forall n: nat | n < k && OpenSince(lines, n, k) :: n == m
  {
    hide OpenSince;
    forall n: nat | n < k && OpenSince(lines, n, k)
      ensures n == m
    {
      if n < m { OneIsOpen(lines, k, n, m); }
      if m < n { OneIsOpen(lines, k, m, n); }
    }
  }

  // ---------------------------------------------------------------- what is shown

  /** A line that stands in no fence and is no fence line is shown; of any other only the fact
      that it ended, when it ended with a newline or a carriage return. */
  ghost function Shown(lines: seq<string>, k: nat): string
    requires k < |lines|
  {
    if !Fenced(lines, k) && MarkerOf(lines[k]).None? then lines[k]
    else if lines[k] != "" && (lines[k][|lines[k]| - 1] == '\n' || lines[k][|lines[k]| - 1] == '\r') then "\n"
    else ""
  }

  ghost function ShownFrom(lines: seq<string>, k: nat): string
    requires k <= |lines|
    decreases |lines| - k
  {
    if k == |lines| then "" else Shown(lines, k) + ShownFrom(lines, k + 1)
  }

  lemma LineIsShown(lines: seq<string>, k: nat)
    requires k < |lines|
    ensures Rendered(FenceBefore(lines, k), lines[k]) == Shown(lines, k)
  {
    hide MarkerOf, FenceBefore, Fenced, Since;
    FenceBeforeExactly(lines, k);
  }

  lemma {:induction false} LinesAreShown(text: string, index: nat, lines: seq<string>, k: nat)
    requires index <= |text| && k <= |lines| && lines[k..] == Lines(text, index)
    ensures RenderFrom(text, index, FenceBefore(lines, k)) == ShownFrom(lines, k)
    decreases |lines| - k
  {
    hide AfterLine, NextStart, Shown, Rendered;
    if index < |text| {
      var line := text[index..NextStart(text, index)];
      assert lines[k] == lines[k..][0] == line && lines[k + 1..] == lines[k..][1..];
      LineIsShown(lines, k);
      LinesAreShown(text, NextStart(text, index), lines, k + 1);
    }
  }

  /** The scanner shows of a text, its comments cut out, exactly the lines outside every fence. */
  lemma VisibleExactly(value: string) returns (spans: seq<(nat, nat)>)
    ensures Comments(value, 0, spans) && Visible(value) == ShownFrom(Lines(CutOut(value, 0, spans), 0), 0)
  {
    spans := CommentsAreRemoved(value, 0);
    var text := CutOut(value, 0, spans);
    var lines := Lines(text, 0);
    assert lines[0..] == lines;
    LinesAreShown(text, 0, lines, 0);
  }
}
