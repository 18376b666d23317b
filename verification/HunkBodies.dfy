/** Hunk bodies as Git prints them, and the two sides read back from them. */
module HunkBodies {
  import opened PyText
  import opened Results
  import opened Seqs
  import opened Patches
  import opened PatchSplit

  /** A line of a hunk: a context line, an added or a removed one. Only the last line of a file may
      lack its newline. */
  datatype Line = Line(sign: char, text: string)

  predicate IsLine(l: Line) {
    && (l.sign == ' ' || l.sign == '+' || l.sign == '-')
    && forall k | 0 <= k < |l.text| - 1 :: l.text[k] != '\n'
  }

  predicate Ended(l: Line) {
    l.text != "" && l.text[|l.text| - 1] == '\n'
  }

  const REMARK := "\\ No newline at end of file\n"

  function Printed(l: Line): seq<string> {
    if Ended(l) then [[l.sign] + l.text] else [[l.sign] + l.text + "\n", REMARK]
  }

  function PrintedBody(lines: seq<Line>): seq<string> {
    if lines == [] then [] else Printed(lines[0]) + PrintedBody(lines[1..])
  }

  function Joined(lines: seq<string>): string {
    if lines == [] then "" else lines[0] + Joined(lines[1..])
  }

  /** The texts of the lines on one side. */
  function Side(lines: seq<Line>, sign: char): seq<string> {
    if lines == [] then []
    else (if lines[0].sign == ' ' || lines[0].sign == sign then [lines[0].text] else []) + Side(lines[1..], sign)
  }

  // ---------------------------------------------------------------- the lines are read back

  predicate WholeLine(line: string) {
    line != "" && line[|line| - 1] == '\n' && forall k | 0 <= k < |line| - 1 :: line[k] != '\n'
  }

  lemma FirstLine(line: string, rest: string)
    requires WholeLine(line)
    ensures LinesFrom(line + rest, 0) == [line] + LinesFrom(rest, 0)
  {
    var text := line + rest;
    assert text[|line| - 1] == '\n';
    assert NextLine(text, 0) == |line|;
    hide NextLine;
    assert text[0..|line|] == line;
    TailOf(line, rest);
    LinesShift(text, |line|, rest, 0);
  }

  lemma {:induction false} JoinedIsRead(lines: seq<string>)
    requires forall k | 0 <= k < |lines| :: WholeLine(lines[k])
    ensures LinesFrom(Joined(lines), 0) == lines
    decreases |lines|
  {
    hide LinesFrom, WholeLine;
    NoLines();
    if lines != [] {
      FirstLine(lines[0], Joined(lines[1..]));
      JoinedIsRead(lines[1..]);
    }
  }

  lemma NoLines()
    ensures LinesFrom("", 0) == []
  {}

  lemma PrintedIsWhole(l: Line)
    requires IsLine(l)
    ensures forall k | 0 <= k < |Printed(l)| :: WholeLine(Printed(l)[k])
    ensures Printed(l)[0][0] == l.sign && (|Printed(l)| == 2 ==> Begins(Printed(l)[1], '\\'))
  {
    if Ended(l) {
      var line := [l.sign] + l.text;
      assert line[|line| - 1] == '\n';
    } else {
      var line := [l.sign] + l.text + "\n";
      if l.text != "" { assert l.text[|l.text| - 1] != '\n'; }
      assert forall k | 0 <= k < |line| - 1 :: line[k] == if k == 0 then l.sign else l.text[k - 1];
      RemarkIsWhole();
    }
  }

  lemma RemarkIsWhole()
    ensures WholeLine(REMARK) && Begins(REMARK, '\\')
  {}

  lemma {:induction false} BodyIsWhole(lines: seq<Line>)
    requires forall k | 0 <= k < |lines| :: IsLine(lines[k])
    ensures forall k | 0 <= k < |PrintedBody(lines)| :: WholeLine(PrintedBody(lines)[k])
    decreases |lines|
  {
    hide WholeLine, IsLine, Printed;
    if lines != [] {
      PrintedIsWhole(lines[0]);
      BodyIsWhole(lines[1..]);
    }
  }

  // ---------------------------------------------------------------- the sides are read back

  lemma ContentShift(front: seq<string>, body: seq<string>, k: nat)
    requires k < |body| && body[k] != []
    ensures (front + body)[|front| + k] == body[k] && Content(front + body, |front| + k) == Content(body, k)
  {
    var whole := front + body;
    assert whole[|front| + k] == body[k];
    if k + 1 < |body| { assert whole[|front| + k + 1] == body[k + 1]; }
  }

  lemma {:induction false} SideShift(front: seq<string>, body: seq<string>, sign: char, k: nat)
    requires k <= |body|
    ensures SideFrom(front + body, sign, |front| + k) == SideFrom(body, sign, k)
    decreases |body| - k
  {
    hide Content;
    if k < |body| {
      if body[k] != [] { ContentShift(front, body, k); }
      assert (front + body)[|front| + k] == body[k];
      SideShift(front, body, sign, k + 1);
    }
  }

  /** The printed line and the body behind it: its text on its sides. */
  lemma OneLineRead(l: Line, body: seq<string>, sign: char)
    requires IsLine(l) && (sign == '+' || sign == '-') && (body != [] ==> body[0] != [] && body[0][0] != '\\')
    ensures SideFrom(Printed(l) + body, sign, 0)
            == (if l.sign == ' ' || l.sign == sign then [l.text] else []) + SideFrom(body, sign, 0)
  {
    hide SideFrom;
    var front := Printed(l);
    var whole := front + body;
    PrintedIsWhole(l);
    assert whole[0] == front[0];
    SideStep(whole, sign, 0);
    SideShift(front, body, sign, 0);
    if Ended(l) {
      assert whole[0][1..] == l.text;
      if body != [] { assert whole[1] == body[0]; }
    } else {
      assert whole[1] == front[1];
      SideStep(whole, sign, 1);
      var line := whole[0][1..];
      assert line == l.text + "\n";
      assert line[..|line| - 1] == l.text;
      assert !OnSide(whole, 1, sign);
    }
  }

  lemma SideStep(body: seq<string>, sign: char, k: nat)
    requires k < |body|
    ensures SideFrom(body, sign, k) == (if OnSide(body, k, sign) then [Content(body, k)] else []) + SideFrom(body, sign, k + 1)
  {}

  lemma {:induction false} SidesAreRead(lines: seq<Line>, sign: char)
    requires (sign == '+' || sign == '-') && forall k | 0 <= k < |lines| :: IsLine(lines[k])
    ensures SideFrom(PrintedBody(lines), sign, 0) == Side(lines, sign)
    decreases |lines|
  {
    hide SideFrom, Printed, IsLine;
    NoSide(sign);
    if lines != [] {
      var body := PrintedBody(lines[1..]);
      StartsWithSign(lines[1..]);
      OneLineRead(lines[0], body, sign);
      SidesAreRead(lines[1..], sign);
    }
  }

  lemma NoSide(sign: char)
    ensures SideFrom([], sign, 0) == []
  {}

  lemma StartsWithSign(lines: seq<Line>)
    requires forall k | 0 <= k < |lines| :: IsLine(lines[k])
    ensures var body := PrintedBody(lines); body != [] ==> body[0] != [] && body[0][0] != '\\'
  {
    if lines != [] { PrintedIsWhole(lines[0]); }
  }

  // ---------------------------------------------------------------- the changed lines are counted

  function Changed(lines: seq<Line>): nat {
    if lines == [] then 0 else (if lines[0].sign == ' ' then 0 else 1) + Changed(lines[1..])
  }

  lemma {:induction false} CountConcat(a: seq<string>, b: seq<string>)
    ensures ChangedLines(a + b) == ChangedLines(a) + ChangedLines(b)
    decreases |a|
  {
    if a == [] {
      assert a + b == b;
    } else {
      assert (a + b)[1..] == a[1..] + b;
      CountConcat(a[1..], b);
    }
  }

  lemma CountOne(l: Line)
    requires IsLine(l)
    ensures ChangedLines(Printed(l)) == if l.sign == ' ' then 0 else 1
  {
    PrintedIsWhole(l);
    hide REMARK, ChangedLines;
    var printed := Printed(l);
    CountSingle(printed[0]);
    if |printed| == 2 {
      CountSingle(printed[1]);
      CountConcat([printed[0]], [printed[1]]);
      assert printed == [printed[0]] + [printed[1]];
    } else {
      assert printed == [printed[0]];
    }
  }

  lemma CountSingle(line: string)
    ensures ChangedLines([line]) == if Begins(line, '+') || Begins(line, '-') then 1 else 0
  {
    assert [line][1..] == [];
  }

  lemma NothingChanged()
    ensures ChangedLines([]) == 0
  {}

  lemma {:induction false} ChangesAreCounted(lines: seq<Line>)
    requires forall k | 0 <= k < |lines| :: IsLine(lines[k])
    ensures ChangedLines(PrintedBody(lines)) == Changed(lines)
    decreases |lines|
  {
    hide ChangedLines, Printed, IsLine;
    NothingChanged();
    if lines != [] {
      CountOne(lines[0]);
      CountConcat(Printed(lines[0]), PrintedBody(lines[1..]));
      ChangesAreCounted(lines[1..]);
    }
  }

  /** A printed hunk is read as it is: its numbers, the texts of both sides with or without a final
      newline, and its changed lines. */
  lemma PrintedHunkIsRead(head: string, lines: seq<Line>, r: Range)
    requires WholeLine(head) && forall k | 0 <= k < |lines| :: IsLine(lines[k])
    requires HunkRange(head + Joined(PrintedBody(lines))) == Some(r)
    ensures var read := ReadHunk(head + Joined(PrintedBody(lines)));
            && read.Some?
            && var h := read.value;
               && h.oldStart == r.oldStart && h.oldCount == r.oldCount && h.newStart == r.newStart && h.newCount == r.newCount
               && h.Before() == Side(lines, '-') && h.After() == Side(lines, '+') && ChangedLines(h.body) == Changed(lines)
  {
    hide HunkRange, LinesFrom, SideFrom, ChangedLines, PrintedBody, IsLine, WholeLine;
    var rest := Joined(PrintedBody(lines));
    BodyIsWhole(lines);
    JoinedIsRead(PrintedBody(lines));
    BodyBehind(head, rest);
    SidesAreRead(lines, '-');
    SidesAreRead(lines, '+');
    ChangesAreCounted(lines);
  }

  lemma BodyBehind(head: string, rest: string)
    requires WholeLine(head)
    ensures BodyLines(head + rest) == LinesFrom(rest, 0)
  {
    var text := head + rest;
    assert text[|head| - 1] == '\n';
    assert NextLine(text, 0) == |head|;
    hide NextLine, LinesFrom;
    TailOf(head, rest);
    LinesShift(text, |head|, rest, 0);
  }
}
