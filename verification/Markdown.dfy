/** The part of a Markdown body that a reader sees, as the text scanner decides it. */
module Markdown {
  import opened PyText
  import opened Results
  import opened Seqs

  const OPENER := "<!--"
  const CLOSER := "-->"

  // ---------------------------------------------------------------- comments

  /** `re.sub(r"<!--.*?(?:-->|$)", "", text, flags=re.DOTALL)` from `index` on. The `$` also
      matches before a newline that ends the text. */
  function WithoutComments(text: string, index: nat): string
    decreases |text| - index
  {
    if index >= |text| then ""
    else if !StartsWithAt(text, OPENER, index) then [text[index]] + WithoutComments(text, index + 1)
    else
      match Find(text, CLOSER, index + 4)
      case None => if text[|text| - 1] == '\n' then "\n" else ""
      case Some(end) => WithoutComments(text, end + 3)
  }

  /** A comment that starts at or after `index`, outside another one, is never closed. */
  predicate LeftOpen(text: string, index: nat)
    decreases |text| - index
  {
    index < |text| &&
    if !StartsWithAt(text, OPENER, index) then LeftOpen(text, index + 1)
    else
      match Find(text, CLOSER, index + 4)
      case None => true
      case Some(end) => LeftOpen(text, end + 3)
  }

  // ---------------------------------------------------------------- lines

  /** The line boundaries of Python's `str.splitlines`. */
  predicate IsBreak(c: char) {
    '\n' <= c <= '\r' || '\U{1C}' <= c <= '\U{1E}' || c == '\U{85}' || c == '\U{2028}' || c == '\U{2029}'
  }

  function BreakLength(text: string, index: nat): (n: nat)
    ensures index <= |text| ==> index + n <= |text|
    ensures n > 0 <==> index < |text| && IsBreak(text[index])
  {
    if index >= |text| || !IsBreak(text[index]) then 0
    else if text[index] == '\r' && index + 1 < |text| && text[index + 1] == '\n' then 2
    else 1
  }

  /** Where the content of the line that starts at `index` ends. */
  function LineStop(text: string, index: nat): (stop: nat)
    requires index <= |text|
    ensures index <= stop <= |text|
    ensures forall k | index <= k < stop :: !IsBreak(text[k])
    ensures stop < |text| ==> IsBreak(text[stop])
    decreases |text| - index
  {
    if index == |text| || IsBreak(text[index]) then index else LineStop(text, index + 1)
  }

  function NextStart(text: string, index: nat): (next: nat)
    requires index <= |text|
    ensures LineStop(text, index) <= next <= |text| && (index < |text| ==> index < next)
  {
    LineStop(text, index) + BreakLength(text, LineStop(text, index))
  }

  // ---------------------------------------------------------------- fences

  datatype Fence = Fence(c: char, length: nat)

  datatype Marker = Marker(fence: Fence, tail: string)

  function Run(text: string, index: nat, c: char): (n: nat)
    ensures index <= |text| ==> index + n <= |text|
    decreases |text| - index
  {
    if index < |text| && text[index] == c then 1 + Run(text, index + 1, c) else 0
  }

  /** Blanks at the start of a line, three at most. */
  function Indent(line: string): (n: nat)
    ensures n <= 3 && n <= |line|
  {
    var blank := (k: nat) => k < |line| && (line[k] == ' ' || line[k] == '\t');
    if !blank(0) then 0 else if !blank(1) then 1 else if !blank(2) then 2 else 3
  }

  function WithoutNewline(s: string): string {
    if s != [] && s[|s| - 1] == '\n' then s[..|s| - 1] else s
  }

  /** The fence that starts a line, and where it ends. */
  function FenceAt(line: string): (r: Option<(Fence, nat)>)
    ensures r.Some? ==> r.value.0.length >= 3 && r.value.1 <= |line|
  {
    var at := Indent(line);
    if at == |line| || (line[at] != '`' && line[at] != '~') then None
    else
      var n := Run(line, at, line[at]);
      if n < 3 then None else Some((Fence(line[at], n), at + n))
  }

  /** The fence regex, on one line with or without its line break. */
  function MarkerOf(line: string): (r: Option<Marker>)
    ensures r.Some? ==> r.value.fence.length >= 3
  {
    match FenceAt(line)
    case None => None
    case Some((fence, end)) => Some(Marker(fence, WithoutNewline(line[end..])))
  }

  predicate Closes(m: Marker, f: Fence) {
    m.fence.c == f.c && m.fence.length >= f.length && Strip(m.tail) == ""
  }

  /** The fence that is open after a line. */
  function AfterLine(fence: Option<Fence>, line: string): Option<Fence> {
    match MarkerOf(line)
    case None => fence
    case Some(m) =>
      match fence
      case None => Some(m.fence)
      case Some(f) => if Closes(m, f) then None else fence
  }

  /** What `visible_markdown` renders for one line. */
  function Rendered(fence: Option<Fence>, line: string): string {
    if fence.None? && MarkerOf(line).None? then line
    else if line != [] && (line[|line| - 1] == '\n' || line[|line| - 1] == '\r') then "\n"
    else ""
  }

  function RenderFrom(text: string, index: nat, fence: Option<Fence>): string
    decreases |text| - index
  {
    if index >= |text| then ""
    else
      var line := text[index..NextStart(text, index)];
      Rendered(fence, line) + RenderFrom(text, NextStart(text, index), AfterLine(fence, line))
  }

  /** `visible_markdown`. */
  function Visible(value: string): string {
    RenderFrom(WithoutComments(value, 0), 0, None)
  }

  /** The Python loop over the lines. */
  method VisibleMarkdown(value: string) returns (rendered: string)
    ensures rendered == Visible(value)
  {
    hide AfterLine, Rendered, MarkerOf, NextStart, WithoutComments;
    var text := WithoutComments(value, 0);
    var fence: Option<Fence> := None;
    var index: nat := 0;
    rendered := "";
    while index < |text|
      invariant Visible(value) == rendered + RenderFrom(text, index, fence)
      decreases |text| - index
    {
      var line := text[index..NextStart(text, index)];
      var marker := MarkerOf(line);
      rendered := rendered + Rendered(fence, line);
      fence := AfterLine(fence, line);
      index := NextStart(text, index);
    }
    assert rendered + "" == rendered;
  }

  // ---------------------------------------------------------------- text that stays as it is

  predicate NoOpener(text: string) {
    forall k | 0 <= k < |text| :: !StartsWithAt(text, OPENER, k)
  }

  predicate NoFenceLine(text: string, index: nat)
    decreases |text| - index
  {
    index >= |text| ||
    (MarkerOf(text[index..NextStart(text, index)]).None? && NoFenceLine(text, NextStart(text, index)))
  }

  lemma {:induction false} PlainTextRenders(text: string, index: nat)
    requires index <= |text| && NoFenceLine(text, index)
    ensures RenderFrom(text, index, None) == text[index..]
    decreases |text| - index
  {
    hide MarkerOf, NextStart;
    if index < |text| {
      var next := NextStart(text, index);
      PlainTextRenders(text, next);
      assert text[index..next] + text[next..] == text[index..];
    }
  }

  lemma {:induction false} PlainTextHasNoComments(text: string, index: nat)
    requires index <= |text| && NoOpener(text)
    ensures WithoutComments(text, index) == text[index..] && !LeftOpen(text, index)
    decreases |text| - index
  {
    if index < |text| { PlainTextHasNoComments(text, index + 1); }
  }

  // ---------------------------------------------------------------- comments, piece by piece

  /** No comment opener can stand across the border of the two texts. */
  predicate Apart(a: string, b: string) {
    b == "" || b[0] == '\n' || (a != "" && a[|a| - 1] == '\n')
  }

  lemma OpenerOnOneSide(a: string, b: string, k: nat)
    requires Apart(a, b) && k < |a|
    ensures StartsWithAt(a + b, OPENER, k) <==> StartsWithAt(a, OPENER, k)
  {
    if k + 4 <= |a| {
      StartsWithInFront(a, b, OPENER, k);
    } else {
      OpenerIs(a + b, k);
      assert (a + b)[|a| - 1] == a[|a| - 1] && (b != "" ==> (a + b)[|a|] == b[0]);
    }
  }

  lemma OpenerIs(text: string, k: nat)
    ensures StartsWithAt(text, OPENER, k) ==>
            k + 4 <= |text| && text[k] == '<' && text[k + 1] == '!' && text[k + 2] == '-' && text[k + 3] == '-'
  {
    if StartsWithAt(text, OPENER, k) {
      assert text[k + 0] == OPENER[0] && text[k + 1] == OPENER[1] && text[k + 2] == OPENER[2] && text[k + 3] == OPENER[3];
    }
  }

  lemma StartsWithInFront(a: string, b: string, pattern: string, k: nat)
    requires k + |pattern| <= |a|
    ensures StartsWithAt(a + b, pattern, k) == StartsWithAt(a, pattern, k)
  {
    assert forall j | k <= j < k + |pattern| :: (a + b)[j] == a[j];
  }

  lemma FindInFront(a: string, b: string, pattern: string, from: nat)
    requires Find(a, pattern, from).Some?
    ensures Find(a + b, pattern, from) == Find(a, pattern, from)
  {
    var at := Find(a, pattern, from).value;
    forall k | from <= k <= at
      ensures StartsWithAt(a + b, pattern, k) == StartsWithAt(a, pattern, k)
    {
      StartsWithInFront(a, b, pattern, k);
    }
  }

  lemma {:induction false} WithoutCommentsConcat(a: string, b: string, index: nat)
    requires index <= |a| && !LeftOpen(a, index) && Apart(a, b)
    ensures WithoutComments(a + b, index) == WithoutComments(a, index) + WithoutComments(b, 0)
    ensures LeftOpen(a + b, index) == LeftOpen(b, 0)
    decreases |a| - index
  {
    hide StartsWithAt, Apart, Find;
    if index == |a| {
      WithoutCommentsShift(a, b, 0);
      assert "" + WithoutComments(b, 0) == WithoutComments(b, 0);
    } else {
      OpenerOnOneSide(a, b, index);
      if StartsWithAt(a, OPENER, index) {
        FindInFront(a, b, CLOSER, index + 4);
        WithoutCommentsConcat(a, b, Find(a, CLOSER, index + 4).value + 3);
      } else {
        WithoutCommentsConcat(a, b, index + 1);
      }
    }
  }

  lemma StartsWithShift(a: string, b: string, pattern: string, k: nat)
    ensures StartsWithAt(a + b, pattern, |a| + k) == StartsWithAt(b, pattern, k)
  {
    if k + |pattern| <= |b| {
      assert forall j | k <= j < k + |pattern| :: (a + b)[|a| + j] == b[j];
    }
  }

  lemma FindShift(a: string, b: string, pattern: string, from: nat)
    ensures Find(a + b, pattern, |a| + from) ==
            match Find(b, pattern, from) case None => None case Some(at) => Some(|a| + at)
  {
    hide StartsWithAt, Find;
    forall k: nat | k >= from
      ensures StartsWithAt(a + b, pattern, |a| + k) == StartsWithAt(b, pattern, k)
    {
      StartsWithShift(a, b, pattern, k);
    }
    var whole, part := Find(a + b, pattern, |a| + from), Find(b, pattern, from);
    if whole.Some? {
      assert StartsWithAt(b, pattern, whole.value - |a|);
    }
    if part.Some? {
      assert StartsWithAt(a + b, pattern, |a| + part.value);
    }
  }

  lemma {:induction false} WithoutCommentsShift(a: string, b: string, index: nat)
    requires index <= |b|
    ensures WithoutComments(a + b, |a| + index) == WithoutComments(b, index)
    ensures LeftOpen(a + b, |a| + index) == LeftOpen(b, index)
    decreases |b| - index
  {
    hide StartsWithAt, Find, WithoutComments, LeftOpen;
    CommentStep(b, index);
    CommentStep(a + b, |a| + index);
    if index < |b| {
      assert (a + b)[|a| + index] == b[index] && (a + b)[|a + b| - 1] == b[|b| - 1];
      StartsWithShift(a, b, OPENER, index);
      if StartsWithAt(b, OPENER, index) {
        FindShift(a, b, CLOSER, index + 4);
        var found := Find(b, CLOSER, index + 4);
        if found.Some? { WithoutCommentsShift(a, b, found.value + 3); }
      } else {
        WithoutCommentsShift(a, b, index + 1);
      }
    }
  }

  lemma CommentStep(text: string, index: nat)
    ensures WithoutComments(text, index) ==
            if index >= |text| then ""
            else if !StartsWithAt(text, OPENER, index) then [text[index]] + WithoutComments(text, index + 1)
            else
              match Find(text, CLOSER, index + 4)
              case None => if text[|text| - 1] == '\n' then "\n" else ""
              case Some(end) => WithoutComments(text, end + 3)
    ensures LeftOpen(text, index) <==>
            index < |text| &&
            if !StartsWithAt(text, OPENER, index) then LeftOpen(text, index + 1)
            else
              match Find(text, CLOSER, index + 4)
              case None => true
              case Some(end) => LeftOpen(text, end + 3)
  {}

  // ---------------------------------------------------------------- fences, piece by piece

  /** The fence that is open after the lines from `index` on, read without their line breaks. */
  function FenceFrom(text: string, index: nat, fence: Option<Fence>): Option<Fence>
    decreases |text| - index
  {
    if index >= |text| then fence
    else FenceFrom(text, NextStart(text, index), AfterLine(fence, text[index..LineStop(text, index)]))
  }

  predicate AllSpace(s: string) {
    forall k | 0 <= k < |s| :: IsSpace(s[k])
  }

  lemma {:induction false} LStripBlank(s: string)
    ensures LStrip(s) == "" <==> AllSpace(s)
    decreases |s|
  {
    hide IsSpace;
    if s != [] {
      if IsSpace(s[0]) {
        LStripBlank(s[1..]);
        if AllSpace(s[1..]) {
          assert forall k | 0 < k < |s| :: s[k] == s[1..][k - 1];
        } else {
          var k :| 0 <= k < |s| - 1 && !IsSpace(s[1..][k]);
          assert !IsSpace(s[k + 1]);
        }
      }
    }
  }

  lemma {:induction false} RStripBlank(s: string)
    ensures AllSpace(RStrip(s)) <==> AllSpace(s)
    decreases |s|
  {
    hide IsSpace;
    if s != [] && IsSpace(s[|s| - 1]) {
      RStripBlank(s[..|s| - 1]);
      if AllSpace(s[..|s| - 1]) {
        assert forall k | 0 <= k < |s| - 1 :: s[k] == s[..|s| - 1][k];
      } else {
        var k :| 0 <= k < |s| - 1 && !IsSpace(s[..|s| - 1][k]);
        assert !IsSpace(s[k]);
      }
    }
  }

  lemma BlankStrip(s: string)
    ensures Strip(s) == "" <==> AllSpace(s)
  {
    hide LStrip, RStrip, AllSpace;
    LStripBlank(RStrip(s));
    RStripBlank(s);
  }

  lemma {:induction false} RunInFront(a: string, b: string, index: nat, c: char)
    requires index <= |a| && (b != [] ==> b[0] != c)
    ensures Run(a + b, index, c) == Run(a, index, c)
    decreases |a| - index
  {
    if index < |a| && a[index] == c { RunInFront(a, b, index + 1, c); }
  }

  /** A line break at the end of a line changes nothing for the fences. */
  lemma BreakKeepsMarker(fence: Option<Fence>, content: string, ending: string)
    requires forall k | 0 <= k < |content| :: !IsBreak(content[k])
    requires ending == "" || ending == "\r\n" || (|ending| == 1 && IsBreak(ending[0]))
    ensures AfterLine(fence, content + ending) == AfterLine(fence, content)
    ensures MarkerOf(content + ending).None? <==> MarkerOf(content).None?
  {
    hide Strip, FenceAt;
    FenceBeforeBreak(content, ending);
    if FenceAt(content).Some? {
      var end := FenceAt(content).value.1;
      TailOfConcat(content, ending, end);
      BreakKeepsBlank(content[end..], ending);
    }
  }

  lemma FenceBeforeBreak(content: string, ending: string)
    requires ending == "" || IsBreak(ending[0])
    ensures FenceAt(content + ending) == FenceAt(content)
  {
    hide Indent, Run;
    SameIndent(content, ending);
    var at := Indent(content);
    if at < |content| {
      if content[at] == '`' || content[at] == '~' { RunInFront(content, ending, at, content[at]); }
    } else if ending != "" {
      assert (content + ending)[at] == ending[0];
    }
  }

  lemma TailOfConcat(a: string, b: string, k: nat)
    requires k <= |a|
    ensures (a + b)[k..] == a[k..] + b
  {}

  lemma SameIndent(content: string, ending: string)
    requires ending == "" || IsBreak(ending[0])
    ensures Indent(content + ending) == Indent(content)
  {}

  lemma BreakKeepsBlank(tail: string, ending: string)
    requires forall k | 0 <= k < |tail| :: !IsBreak(tail[k])
    requires ending == "" || ending == "\r\n" || (|ending| == 1 && IsBreak(ending[0]))
    ensures Strip(WithoutNewline(tail + ending)) == "" <==> Strip(WithoutNewline(tail)) == ""
  {
    assert WithoutNewline(tail) == tail;
    BlankStrip(tail);
    BlankStrip(WithoutNewline(tail + ending));
    BreakIsSpace(tail, ending);
  }

  lemma BreakIsSpace(tail: string, ending: string)
    requires ending == "" || ending == "\r\n" || (|ending| == 1 && IsBreak(ending[0]))
    ensures AllSpace(WithoutNewline(tail + ending)) <==> AllSpace(tail + ending)
    ensures AllSpace(tail + ending) <==> AllSpace(tail)
  {
    hide Strip;
    var whole := tail + ending;
    forall k | |tail| <= k < |whole|
      ensures IsSpace(whole[k])
    {
      assert whole[k] == ending[k - |tail|];
    }
    assert forall k | 0 <= k < |tail| :: whole[k] == tail[k];
    if whole != [] && whole[|whole| - 1] == '\n' {
      assert forall k | 0 <= k < |whole| - 1 :: whole[..|whole| - 1][k] == whole[k];
    }
  }

  lemma LineBreaksKeepMarkers(text: string, index: nat, fence: Option<Fence>)
    requires index < |text|
    ensures var (content, line) := (text[index..LineStop(text, index)], text[index..NextStart(text, index)]);
            && AfterLine(fence, line) == AfterLine(fence, content)
            && (MarkerOf(line).None? <==> MarkerOf(content).None?)
  {
    hide MarkerOf, AfterLine;
    var stop, next := LineStop(text, index), NextStart(text, index);
    assert text[index..next] == text[index..stop] + text[stop..next];
    if BreakLength(text, stop) == 2 { assert text[stop..next] == "\r\n"; }
    BreakKeepsMarker(fence, text[index..stop], text[stop..next]);
  }

  lemma {:induction false} LineStopInFront(a: string, b: string, index: nat)
    requires index <= |a| && (b == [] || LineStop(a, index) < |a| || IsBreak(b[0]))
    ensures LineStop(a + b, index) == LineStop(a, index)
    decreases |a| - index
  {
    if index < |a| && !IsBreak(a[index]) { LineStopInFront(a, b, index + 1); }
  }

  lemma {:induction false} LineStopShift(a: string, b: string, index: nat)
    requires index <= |b|
    ensures LineStop(a + b, |a| + index) == |a| + LineStop(b, index)
    decreases |b| - index
  {
    if index < |b| && !IsBreak(b[index]) { LineStopShift(a, b, index + 1); }
  }

  lemma NextStartShift(a: string, b: string, index: nat)
    requires index <= |b|
    ensures LineStop(a + b, |a| + index) == |a| + LineStop(b, index)
    ensures NextStart(a + b, |a| + index) == |a| + NextStart(b, index)
  {
    LineStopShift(a, b, index);
    hide LineStop, IsBreak;
    var stop := LineStop(b, index);
    assert forall k | stop <= k < |b| :: (a + b)[|a| + k] == b[k];
  }

  lemma {:induction false} FenceShift(a: string, b: string, index: nat, fence: Option<Fence>)
    requires index <= |b|
    ensures FenceFrom(a + b, |a| + index, fence) == FenceFrom(b, index, fence)
    decreases |b| - index
  {
    hide AfterLine, LineStop, NextStart;
    if index < |b| {
      NextStartShift(a, b, index);
      var stop, next := LineStop(b, index), NextStart(b, index);
      assert (a + b)[|a| + index..|a| + stop] == b[index..stop];
      FenceShift(a, b, next, AfterLine(fence, b[index..stop]));
    }
  }

  lemma {:induction false} RenderShift(a: string, b: string, index: nat, fence: Option<Fence>)
    requires index <= |b|
    ensures RenderFrom(a + b, |a| + index, fence) == RenderFrom(b, index, fence)
    decreases |b| - index
  {
    hide AfterLine, Rendered, LineStop, NextStart;
    if index < |b| {
      NextStartShift(a, b, index);
      var next := NextStart(b, index);
      assert (a + b)[|a| + index..|a| + next] == b[index..next];
      RenderShift(a, b, next, AfterLine(fence, b[index..next]));
    }
  }

  predicate EndsLine(a: string) {
    a != "" && a[|a| - 1] == '\n'
  }

  lemma NextStartInFront(a: string, b: string, index: nat)
    requires index < |a| && EndsLine(a)
    ensures LineStop(a + b, index) == LineStop(a, index) < |a| && NextStart(a + b, index) == NextStart(a, index)
  {
    assert IsBreak(a[|a| - 1]);
    LineStopInFront(a, b, index);
  }

  lemma {:induction false} FenceConcat(a: string, b: string, index: nat, fence: Option<Fence>)
    requires index <= |a| && EndsLine(a)
    ensures FenceFrom(a + b, index, fence) == FenceFrom(b, 0, FenceFrom(a, index, fence))
    decreases |a| - index
  {
    hide AfterLine, EndsLine;
    if index == |a| {
      FenceShift(a, b, 0, fence);
    } else {
      NextStartInFront(a, b, index);
      hide NextStart, LineStop;
      var stop, next := LineStop(a, index), NextStart(a, index);
      assert (a + b)[index..stop] == a[index..stop];
      FenceConcat(a, b, next, AfterLine(fence, a[index..stop]));
    }
  }

  lemma {:induction false} RenderConcat(a: string, b: string, index: nat, fence: Option<Fence>)
    requires index <= |a| && EndsLine(a)
    ensures RenderFrom(a + b, index, fence) == RenderFrom(a, index, fence) + RenderFrom(b, 0, FenceFrom(a, index, fence))
    decreases |a| - index
  {
    hide AfterLine, EndsLine, Rendered, MarkerOf;
    if index == |a| {
      RenderShift(a, b, 0, fence);
      assert "" + RenderFrom(b, 0, fence) == RenderFrom(b, 0, fence);
    } else {
      NextStartInFront(a, b, index);
      LineBreaksKeepMarkers(a, index, fence);
      var next, line := NextStart(a, index), a[index..NextStart(a, index)];
      assert (a + b)[index..next] == line;
      assert FenceFrom(a, index, fence) == FenceFrom(a, next, AfterLine(fence, line));
      hide NextStart, LineStop, RenderFrom, FenceFrom;
      RenderConcat(a, b, next, AfterLine(fence, line));
      Regroup(Rendered(fence, line), RenderFrom(a, next, AfterLine(fence, line)), RenderFrom(b, 0, FenceFrom(a, index, fence)));
    }
  }

  /** Ending the text with one more newline leaves the same fence open. */
  lemma {:induction false} NewlineKeepsFence(a: string, index: nat, fence: Option<Fence>)
    requires index <= |a|
    ensures FenceFrom(a + "\n", index, fence) == FenceFrom(a, index, fence)
    decreases |a| - index
  {
    var b := a + "\n";
    LineStopInFront(a, "\n", index);
    var stop := LineStop(a, index);
    assert b[index..stop] == a[index..stop];
    hide AfterLine, LineStop;
    if index == |a| {
      assert b[index..index] == "";
    } else if NextStart(b, index) == NextStart(a, index) {
      NewlineKeepsFence(a, NextStart(a, index), AfterLine(fence, a[index..stop]));
    } else {
      assert NextStart(a, index) == |a| && NextStart(b, index) == |b|;
    }
  }
}
