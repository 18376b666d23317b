/** The pull request body: what is left open is closed, so that text after it shows. */
module BodyText {
  import opened PyText
  import opened Results
  import opened Seqs
  import opened Markdown
  import opened Patches

  /** `text.rfind(pattern)`, searched from `from` down. */
  function RFind(text: string, pattern: string, from: nat): (r: Option<nat>)
    ensures r.Some? ==> r.value <= from && StartsWithAt(text, pattern, r.value)
    ensures forall k: nat | k <= from && (r.Some? ==> r.value < k) :: !StartsWithAt(text, pattern, k)
  {
    if StartsWithAt(text, pattern, from) then Some(from) else if from == 0 then None else RFind(text, pattern, from - 1)
  }

  function CloseComment(body: string): string {
    var last := RFind(body, OPENER, |body|);
    if last.Some? && Find(body, CLOSER, last.value + 4).None? then body + "\n-->" else body
  }

  /** `re.sub(r"<!--.*?-->", "", text, flags=re.DOTALL)`: an unclosed opener stays. */
  function WithoutClosedComments(text: string, index: nat): string
    decreases |text| - index
  {
    if index >= |text| then ""
    else
      var end := if StartsWithAt(text, OPENER, index) then Find(text, CLOSER, index + 4) else None;
      match end
      case None => [text[index]] + WithoutClosedComments(text, index + 1)
      case Some(at) => WithoutClosedComments(text, at + 3)
  }

  function FenceText(f: Fence): (s: string)
    ensures |s| == f.length && forall k | 0 <= k < |s| :: s[k] == f.c
  {
    seq(f.length, _ => f.c)
  }

  function CloseFence(body: string): string {
    match FenceFrom(WithoutClosedComments(body, 0), 0, None)
    case None => body
    case Some(f) => body + "\n" + FenceText(f)
  }

  /** `_closed`. */
  function Closed(body: string): string {
    CloseFence(CloseComment(body))
  }

  /** The Python loop, over the lines without their line breaks. */
  method CloseBody(body: string) returns (closed: string)
    ensures closed == Closed(body)
  {
    hide MarkerOf, Find, RFind, WithoutClosedComments, NextStart, LineStop, AfterLine;
    var last := RFind(body, OPENER, |body|);
    var commented := body;
    if last.Some? && Find(body, CLOSER, last.value + 4).None? {
      commented := commented + "\n-->";
    }
    var text := WithoutClosedComments(commented, 0);
    var fence: Option<Fence> := None;
    var index: nat := 0;
    while index < |text|
      invariant FenceFrom(text, 0, None) == FenceFrom(text, index, fence)
      decreases |text| - index
    {
      var line := text[index..LineStop(text, index)];
      index := NextStart(text, index);
      ghost var before := fence;
      var marker := MarkerOf(line);
      if marker.Some? {
        if fence.None? {
          fence := Some(marker.value.fence);
        } else if Closes(marker.value, fence.value) {
          fence := None;
        }
      }
      LoopStep(before, line, fence);
    }
    closed := if fence.None? then commented else commented + "\n" + FenceText(fence.value);
  }

  lemma LoopStep(fence: Option<Fence>, line: string, next: Option<Fence>)
    requires match MarkerOf(line)
             case None => next == fence
             case Some(m) => next == if fence.None? then Some(m.fence) else if Closes(m, fence.value) then None else fence
    ensures next == AfterLine(fence, line)
  {}

  // ---------------------------------------------------------------- comments are closed

  lemma {:induction false} CloserEndsComments(text: string, index: nat)
    requires |text| >= 3 && StartsWithAt(text, CLOSER, |text| - 3) && index <= |text|
    requires forall k | |text| - 7 < k < |text| && k >= 0 :: !StartsWithAt(text, OPENER, k)
    ensures !LeftOpen(text, index)
    decreases |text| - index
  {
    hide StartsWithAt;
    if index < |text| {
      if StartsWithAt(text, OPENER, index) {
        CloserEndsComments(text, Find(text, CLOSER, index + 4).value + 3);
      } else {
        CloserEndsComments(text, index + 1);
      }
    }
  }

  /** A comment is left open only behind a last opener that no closer follows. */
  lemma {:induction false} LeftOpenBehindLastOpener(text: string, index: nat)
    requires index <= |text| && LeftOpen(text, index)
    ensures RFind(text, OPENER, |text|).Some? && Find(text, CLOSER, RFind(text, OPENER, |text|).value + 4).None?
    decreases |text| - index
  {
    hide StartsWithAt, RFind;
    if StartsWithAt(text, OPENER, index) {
      var found := Find(text, CLOSER, index + 4);
      if found.Some? { LeftOpenBehindLastOpener(text, found.value + 3); }
    } else {
      LeftOpenBehindLastOpener(text, index + 1);
    }
  }

  lemma CommentsClosed(body: string)
    ensures !LeftOpen(CloseComment(body), 0)
  {
    var text := CloseComment(body);
    if text == body {
      if LeftOpen(body, 0) { LeftOpenBehindLastOpener(body, 0); }
    } else {
      forall k | |text| - 7 < k < |text| && k >= 0
        ensures !StartsWithAt(text, OPENER, k)
      {
        OpenerIs(text, k);
      }
      StartsWithShift(body + "\n", "-->", CLOSER, 0);
      assert text == (body + "\n") + "-->";
      CloserEndsComments(text, 0);
    }
  }

  lemma {:induction false} BothRemoveTheSame(text: string, index: nat)
    requires index <= |text| && !LeftOpen(text, index)
    ensures WithoutClosedComments(text, index) == WithoutComments(text, index)
    decreases |text| - index
  {
    hide StartsWithAt;
    if index < |text| {
      if StartsWithAt(text, OPENER, index) {
        BothRemoveTheSame(text, Find(text, CLOSER, index + 4).value + 3);
      } else {
        BothRemoveTheSame(text, index + 1);
      }
    }
  }

  // ---------------------------------------------------------------- fences are closed

  lemma {:induction false} RunOfFence(text: string, index: nat, c: char)
    requires index <= |text| && forall k | index <= k < |text| :: text[k] == c
    ensures Run(text, index, c) == |text| - index
    decreases |text| - index
  {
    if index < |text| { RunOfFence(text, index + 1, c); }
  }

  lemma {:induction false} FenceClosesItself(f: Fence)
    requires f.length >= 3 && (f.c == '`' || f.c == '~')
    ensures FenceFrom(FenceText(f), 0, Some(f)) == None
  {
    var line := FenceText(f);
    assert line[0] == f.c && Indent(line) == 0;
    assert forall k | 0 <= k < |line| :: !IsBreak(line[k]);
    assert LineStop(line, 0) == |line|;
    RunOfFence(line, 0, f.c);
    assert line[0..|line|] == line && line[|line|..] == "";
    assert MarkerOf(line) == Some(Marker(f, ""));
    assert Closes(Marker(f, ""), f);
  }

  /** Every fence that a scan leaves open was read from a fence line. */
  predicate RealFence(fence: Option<Fence>) {
    fence.Some? ==> fence.value.length >= 3 && (fence.value.c == '`' || fence.value.c == '~')
  }

  lemma {:induction false} FencesAreReal(text: string, index: nat, fence: Option<Fence>)
    requires RealFence(fence)
    ensures RealFence(FenceFrom(text, index, fence))
    decreases |text| - index
  {
    hide NextStart, LineStop;
    if index < |text| {
      FencesAreReal(text, NextStart(text, index), AfterLine(fence, text[index..LineStop(text, index)]));
    }
  }

  /** What `_closed` returns leaves neither a comment nor a fence open for the scanner. */
  lemma ClosedLeavesNothingOpen(body: string)
    ensures !LeftOpen(Closed(body), 0)
    ensures FenceFrom(WithoutComments(Closed(body), 0), 0, None) == None
  {
    hide WithoutComments, WithoutClosedComments, LeftOpen, FenceFrom, CloseComment;
    var commented := CloseComment(body);
    CommentsClosed(body);
    BothRemoveTheSame(commented, 0);
    var text := WithoutComments(commented, 0);
    var fence := FenceFrom(text, 0, None);
    FencesAreReal(text, 0, None);
    if fence.Some? {
      var tail := "\n" + FenceText(fence.value);
      assert Closed(body) == commented + tail by { Regroup(commented, "\n", FenceText(fence.value)); }
      FenceLineIsPlain(fence.value);
      WithoutCommentsConcat(commented, tail, 0);
      Regroup(text, "\n", FenceText(fence.value));
      NewlineKeepsFence(text, 0, None);
      FenceConcat(text + "\n", FenceText(fence.value), 0, None);
      FenceClosesItself(fence.value);
    }
  }

  lemma FenceLineIsPlain(f: Fence)
    requires f.c == '`' || f.c == '~'
    ensures WithoutComments("\n" + FenceText(f), 0) == "\n" + FenceText(f) && !LeftOpen("\n" + FenceText(f), 0)
  {
    var tail := "\n" + FenceText(f);
    forall k | 0 <= k < |tail|
      ensures !StartsWithAt(tail, OPENER, k)
    {
      OpenerIs(tail, k);
      assert tail[k] != '<';
    }
    PlainTextHasNoComments(tail, 0);
    assert tail[0..] == tail;
  }

  /** Text after a closed body that opens nothing itself is shown, whatever mix of comments and
      fences the body left open. */
  lemma TextAfterClosedShows(body: string, text: string)
    requires NoOpener(text) && NoFenceLine(text, 0)
    ensures Visible(Closed(body) + "\n\n" + text) == Visible(Closed(body) + "\n\n") + text
  {
    ClosedLeavesNothingOpen(body);
    TextAfterShows(Closed(body), text);
  }

  lemma TextAfterShows(body: string, text: string)
    requires !LeftOpen(body, 0) && FenceFrom(WithoutComments(body, 0), 0, None) == None
    requires NoOpener(text) && NoFenceLine(text, 0)
    ensures Visible(body + "\n\n" + text) == Visible(body + "\n\n") + text
  {
    hide WithoutComments, LeftOpen, FenceFrom, RenderFrom, NoFenceLine, NoOpener;
    var front, seen := body + "\n\n", WithoutComments(body, 0);
    TwoNewlinesArePlain();
    WithoutCommentsConcat(body, "\n\n", 0);
    PlainTextHasNoComments(text, 0);
    WithoutCommentsConcat(front, text, 0);
    assert text[0..] == text;
    NewlineKeepsFence(seen, 0, None);
    NewlineKeepsFence(seen + "\n", 0, None);
    assert seen + "\n" + "\n" == seen + "\n\n";
    RenderConcat(seen + "\n\n", text, 0, None);
    PlainTextRenders(text, 0);
  }

  lemma TwoNewlinesArePlain()
    ensures WithoutComments("\n\n", 0) == "\n\n" && !LeftOpen("\n\n", 0)
  {
    forall k | 0 <= k < 2
      ensures !StartsWithAt("\n\n", OPENER, k)
    {
      OpenerIs("\n\n", k);
    }
    PlainTextHasNoComments("\n\n", 0);
    assert "\n\n"[0..] == "\n\n";
  }

  // ---------------------------------------------------------------- the assembled body

  const SEPARATOR := "\n\n---\n\n"

  /** The closed body, with the link to the issue in front unless it has one; `links` is `_links_issue`. */
  function Linked(raw: string, links: string -> bool, number: nat): string {
    var closed := Closed(Strip(raw));
    if links(closed) then closed else "Fixes #" + Decimal(number) + "\n\n" + closed
  }

  /** The body `assemble_pull_request` publishes. */
  function Assembled(raw: string, links: string -> bool, number: nat, note: string, disclosure: string): string {
    RStrip(Linked(raw, links, number)) + "\n\n" + note + SEPARATOR + disclosure
  }

  predicate Contains(text: string, part: string) {
    exists at: nat | at <= |text| :: StartsWithAt(text, part, at)
  }

  predicate EndsInText(s: string) {
    s == "" || !IsSpace(s[|s| - 1])
  }

  lemma {:induction false} RStripEnds(s: string)
    ensures EndsInText(RStrip(s)) && (EndsInText(s) ==> RStrip(s) == s)
    decreases |s|
  {
    hide IsSpace;
    if s != "" && IsSpace(s[|s| - 1]) { RStripEnds(s[..|s| - 1]); }
  }

  lemma {:induction false} LStripEnds(s: string)
    requires EndsInText(s)
    ensures EndsInText(LStrip(s))
    decreases |s|
  {
    hide IsSpace;
    if s != "" && IsSpace(s[0]) { LStripEnds(s[1..]); }
  }

  lemma ClosedEndsInText(body: string)
    requires EndsInText(body)
    ensures EndsInText(Closed(body))
  {
    hide FenceFrom, WithoutClosedComments, RFind, Find;
    var text := WithoutClosedComments(CloseComment(body), 0);
    FencesAreReal(text, 0, None);
    assert EndsInText(CloseComment(body));
  }

  predicate Settled(body: string) {
    !LeftOpen(body, 0) && FenceFrom(WithoutComments(body, 0), 0, None) == None
  }

  /** A line that starts with a letter and has neither line break nor `<` opens nothing. */
  lemma PlainLineIsSettled(line: string)
    requires line != "" && line[0] == 'F' && forall k | 0 <= k < |line| :: !IsBreak(line[k]) && line[k] != '<'
    ensures Settled(line) && NoOpener(line) && FenceFrom(line, 0, None) == None
  {
    forall k | 0 <= k < |line|
      ensures !StartsWithAt(line, OPENER, k)
    {
      OpenerIs(line, k);
    }
    PlainTextHasNoComments(line, 0);
    assert line[0..] == line;
    assert LineStop(line, 0) == |line| && line[0..|line|] == line;
    assert Indent(line) == 0;
  }

  lemma FixesLineIsPlain(number: nat)
    ensures var line := "Fixes #" + Decimal(number);
            line[0] == 'F' && !IsSpace(line[|line| - 1]) && forall k | 0 <= k < |line| :: !IsBreak(line[k]) && line[k] != '<'
  {
    var line := "Fixes #" + Decimal(number);
    assert IsDigit(line[|line| - 1]);
    forall k | 0 <= k < |line|
      ensures !IsBreak(line[k]) && line[k] != '<'
    {
      if k >= 7 { assert IsDigit(Decimal(number)[k - 7]); }
    }
  }

  lemma SettledAfterLine(line: string, body: string)
    requires line != "" && line[0] == 'F' && forall k | 0 <= k < |line| :: !IsBreak(line[k]) && line[k] != '<'
    requires Settled(body)
    ensures Settled(line + "\n\n" + body)
  {
    hide WithoutComments, LeftOpen, FenceFrom;
    PlainLineIsSettled(line);
    var front := line + "\n\n";
    TwoNewlinesArePlain();
    PlainTextHasNoComments(line, 0);
    assert line[0..] == line;
    WithoutCommentsConcat(line, "\n\n", 0);
    WithoutCommentsConcat(front, body, 0);
    NewlineKeepsFence(line, 0, None);
    NewlineKeepsFence(line + "\n", 0, None);
    assert line + "\n" + "\n" == front;
    FenceConcat(front, WithoutComments(body, 0), 0, None);
  }

  lemma LinkedIsSettled(raw: string, links: string -> bool, number: nat)
    ensures Settled(RStrip(Linked(raw, links, number)))
  {
    hide Closed, Settled, IsBreak, IsSpace, RStrip, LStrip, Decimal;
    var closed, fixes := Closed(Strip(raw)), "Fixes #" + Decimal(number);
    RStripEnds(raw);
    LStripEnds(RStrip(raw));
    ClosedEndsInText(Strip(raw));
    ClosedIsSettled(Strip(raw));
    RStripEnds(Linked(raw, links, number));
    FixesLineIsPlain(number);
    if links(closed) {
    } else if closed == "" {
      assert Linked(raw, links, number) == fixes + "\n\n";
      RStripNewlines(fixes);
      PlainLineIsSettled(fixes);
    } else {
      SettledAfterLine(fixes, closed);
    }
  }

  /** Unless the note or the disclosure itself opens a comment or a fence, the published body
      shows the disclosure: the error for a hidden one cannot come from the agent's body. */
  lemma DisclosureShows(raw: string, links: string -> bool, number: nat, note: string, disclosure: string)
    requires NoOpener(note + SEPARATOR + disclosure) && NoFenceLine(note + SEPARATOR + disclosure, 0)
    ensures Contains(Visible(Assembled(raw, links, number, note, disclosure)), disclosure)
  {
    hide Linked, Settled, Visible, NoOpener, NoFenceLine, RStrip, SEPARATOR;
    LinkedIsSettled(raw, links, number);
    var body, text := RStrip(Linked(raw, links, number)), note + SEPARATOR + disclosure;
    ShowsAfter(body, text);
    var front := Visible(body + "\n\n");
    assert Assembled(raw, links, number, note, disclosure) == body + "\n\n" + text;
    assert front + text == (front + note + SEPARATOR) + disclosure;
    StartsAfter(front + note + SEPARATOR, disclosure);
  }

  lemma StartsAfter(front: string, part: string)
    ensures StartsWithAt(front + part, part, |front|)
  {}

  lemma ClosedIsSettled(body: string)
    ensures Settled(Closed(body))
  {
    ClosedLeavesNothingOpen(body);
  }

  lemma ShowsAfter(body: string, text: string)
    requires Settled(body) && NoOpener(text) && NoFenceLine(text, 0)
    ensures Visible(body + "\n\n" + text) == Visible(body + "\n\n") + text
  {
    hide LeftOpen, FenceFrom, WithoutComments, Visible, NoOpener, NoFenceLine;
    TextAfterShows(body, text);
  }

  lemma RStripNewlines(s: string)
    requires s != "" && !IsSpace(s[|s| - 1])
    ensures RStrip(s + "\n\n") == s
  {
    assert (s + "\n\n")[..|s| + 1] == s + "\n" && (s + "\n")[..|s|] == s;
    assert RStrip(s + "\n\n") == RStrip(s + "\n") == RStrip(s);
  }

  // ---------------------------------------------------------------- what is added to the body

  /** No closer follows some opener, within it or outside any comment. */
  ghost predicate Unclosed(body: string) {
    exists k: nat :: StartsWithAt(body, OPENER, k) && Find(body, CLOSER, k + 4).None?
  }

  /** The closer keeps the body and adds a comment's end behind it exactly when no closer follows
      some opener, and then the open fence's marker exactly when a fence is open. */
  lemma ClosedKeepsTheBody(body: string)
    ensures var commented := if Unclosed(body) then body + "\n-->" else body;
            var fence := FenceFrom(WithoutComments(commented, 0), 0, None);
            Closed(body) == if fence.None? then commented else commented + "\n" + FenceText(fence.value)
  {
    hide FenceFrom, WithoutClosedComments, WithoutComments;
    LastOpenerDecides(body);
    CommentsClosed(body);
    BothRemoveTheSame(CloseComment(body), 0);
  }

  lemma LastOpenerDecides(body: string)
    ensures CloseComment(body) == if Unclosed(body) then body + "\n-->" else body
  {
    hide StartsWithAt;
    var last := RFind(body, OPENER, |body|);
    if Unclosed(body) {
      var k: nat :| StartsWithAt(body, OPENER, k) && Find(body, CLOSER, k + 4).None?;
      OpenerIs(body, k);
    }
  }

  /** The published body is the issue link unless the body has one, the whole closed body, the note,
      and the disclosure; a body without text leaves the link. */
  lemma AssembledHoldsTheBody(raw: string, links: string -> bool, number: nat, note: string, disclosure: string)
    ensures var (closed, fixes) := (Closed(Strip(raw)), "Fixes #" + Decimal(number));
            var body := if links(closed) then closed else if closed == "" then fixes else fixes + "\n\n" + closed;
            Assembled(raw, links, number, note, disclosure) == body + "\n\n" + note + SEPARATOR + disclosure
  {
    hide Closed, IsBreak, IsSpace, RStrip, LStrip, Decimal, SEPARATOR;
    var closed, fixes := Closed(Strip(raw)), "Fixes #" + Decimal(number);
    RStripEnds(raw);
    LStripEnds(RStrip(raw));
    ClosedEndsInText(Strip(raw));
    RStripEnds(Linked(raw, links, number));
    FixesLineIsPlain(number);
    if !links(closed) && closed == "" {
      assert Linked(raw, links, number) == fixes + "\n\n";
      RStripNewlines(fixes);
    }
  }
}
