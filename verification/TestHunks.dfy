/** What the hunks of a Rust file change on the test side of a split. */
module TestHunks {
  import opened PyText
  import opened Results
  import opened Patches
  import opened PatchSplit
  import opened PatchLines
  import opened PatchFiles
  import opened PatchSides
  import opened RustTests
  import RustCode

  /** A hunk goes to the tests exactly when it changes a line that is not blank and every such line
      is looked up at a line of a test item. */
  lemma {:induction false} FlagsAreExact(hunks: seq<string>, lines: set<nat>, k: nat, i: nat)
    requires k <= i < |hunks| && Flags(hunks, lines, k).Ok?
    ensures ReadHunk(hunks[i]).Some?
    ensures var h := ReadHunk(hunks[i]).value; Flags(hunks, lines, k).value[i - k] == AllWithin(h.newStart, h.body, lines)
    decreases i - k
  {
    hide ReadHunk, AllWithin;
    if k < i { FlagsAreExact(hunks, lines, k + 1, i); }
  }

  /** Where a line of a text stands: `start` is the offset of line `m` of the lines from `index` on. */
  lemma {:induction false} LineStands(text: string, index: nat, m: nat) returns (start: nat)
    requires index <= |text| && m < |LinesFrom(text, index)|
    requires index == 0 || text[index - 1] == '\n'
    ensures var line := LinesFrom(text, index)[m];
            && StartsWithAt(text, line, start) && line != ""
            && LineOf(text, start) == LineOf(text, index) + m && (start == 0 || text[start - 1] == '\n')
            && (start + |line| == |text| || text[start + |line| - 1] == '\n')
    decreases m
  {
    var next := NextLine(text, index);
    if m == 0 {
      start := index;
    } else {
      start := LineStands(text, next, m - 1);
      OneLineOn(text, index);
    }
  }

  lemma OneLineOn(text: string, index: nat)
    requires index < |text| && NextLine(text, index) < |text|
    ensures LineOf(text, NextLine(text, index)) == LineOf(text, index) + 1
  {
    NoNewlineOn(text, index, LineEnd(text, index));
  }

  lemma {:induction false} NoNewlineOn(text: string, index: nat, end: nat)
    requires index <= end <= |text| && forall k | index <= k < end :: text[k] != '\n'
    ensures LineOf(text, end) == LineOf(text, index)
    decreases end
  {
    if index < end { NoNewlineOn(text, index, end - 1); }
  }

  /** Part of the line at `start` lies between `first` and `last`. */
  predicate Meets(start: nat, line: string, first: nat, last: nat) {
    first < start + |line| && start <= last
  }

  /** A line whose number is between those of `first` and `last` has a part between them. */
  lemma NumbersMeet(text: string, start: nat, line: string, first: nat, last: nat)
    requires StartsWithAt(text, line, start) && line != "" && first < |text| && last <= |text|
    requires start == 0 || text[start - 1] == '\n'
    requires start + |line| == |text| || text[start + |line| - 1] == '\n'
    requires LineOf(text, first) <= LineOf(text, start) <= LineOf(text, last)
    ensures Meets(start, line, first, last)
  {
    if last < start { LineOfGrows(text, last, start); }
    if start + |line| <= first { LineOfGrows(text, start, first); }
  }

  /** The offset of the line in the file after the patch, and the test item it has a part in. */
  ghost predicate InsideTestCode(text: string, code: string, line: string, start: nat, first: nat, last: nat) {
    StartsWithAt(text, line, start) && TestItem(code, first, last) && Meets(start, line, first, last)
  }

  /** A line whose number is one of a test item has a part in a test item. */
  lemma LineIsInside(post: PostImage, text: string, number: nat) returns (start: nat, first: nat, last: nat)
    requires 0 < number <= |LinesFrom(text, 0)|
    requires var code := RustCode.CodeOnly(post.alnum, text); InTestItem(code, number, |code|)
    ensures InsideTestCode(text, RustCode.CodeOnly(post.alnum, text), LinesFrom(text, 0)[number - 1], start, first, last)
  {
    hide LinesFrom, TestItem, Meets, RustCode.CodeOnly, InTestItem, StartsWithAt;
    start := LineStands(text, 0, number - 1);
    first, last := ItemAt(post, text, number);
    NumbersMeet(text, start, LinesFrom(text, 0)[number - 1], first, last);
  }

  /** A hunk on the test side has all its changed lines that are not blank on lines of test items. */
  lemma TestHunksAreWithin(file: FilePatch, post: PostImage, i: nat)
    requires ClassOf(file, post).Ok? && ClassOf(file, post).value.ByHunk? && i < |file.hunks|
    ensures post.read(file.path).Some? && ReadHunk(file.hunks[i]).Some?
    ensures var h := ReadHunk(file.hunks[i]).value;
            ClassOf(file, post).value.flags[i] <==>
            AllWithin(h.newStart, h.body, TestLinesOf(post.read(file.path).value, post))
  {
    hide ReadHunk, AllWithin, TestLines, IsTestPath, EndsWith, Holds, Flags;
    FlagsAreExact(file.hunks, TestLinesOf(post.read(file.path).value, post), 0, i);
  }

  /** Every line that is not blank and that a hunk on the test side adds is, in the file after the
      patch, a line of a `#[cfg(test)]` item, wherever comments and strings hide braces; every one it
      removes is looked up on such a line. */
  lemma TestHunksStayInside(file: FilePatch, post: PostImage, base: seq<string>, i: nat, k: nat)
    requires ClassOf(file, post).Ok? && ClassOf(file, post).value.ByHunk?
    requires i < |file.hunks| && ClassOf(file, post).value.flags[i]
    requires AllRead(file.hunks) && WellFormed(base, Hunks(file.hunks), 0, 0)
    requires forall h | h in Hunks(file.hunks) :: h.Place() >= 0
    requires post.read(file.path).Some? && LinesFrom(post.read(file.path).value, 0) == Patched(base, Hunks(file.hunks))
    requires k < |ReadHunk(file.hunks[i]).value.body| && Counts(ReadHunk(file.hunks[i]).value.body, k)
    ensures var (text, h) := (post.read(file.path).value, ReadHunk(file.hunks[i]).value);
            var code := RustCode.CodeOnly(post.alnum, text);
            && InTestItem(code, PlaceOf(h.newStart, h.body, k), |code|)
            && (Begins(h.body[k], '+') ==>
                  exists start, first, last :: InsideTestCode(text, code, Content(h.body, k), start, first, last))
  {
    hide ReadHunk, WellFormed, Patched, Content, TestLines, RustCode.CodeOnly, ClassOf, LinesFrom, AllRead, InsideTestCode, InTestItem;
    TestHunksAreWithin(file, post, i);
    var text, h := post.read(file.path).value, ReadHunk(file.hunks[i]).value;
    var number := PlaceOf(h.newStart, h.body, k);
    assert number in TestLines(RustCode.CodeOnly(post.alnum, text));
    if Begins(h.body[k], '+') {
      var hunks := Hunks(file.hunks);
      assert hunks[i] == h;
      AddedLinesArePlaced(base, hunks, i, k);
      var start, first, last := LineIsInside(post, text, number);
    }
  }

  lemma ItemAt(post: PostImage, text: string, number: nat) returns (first: nat, last: nat)
    requires var code := RustCode.CodeOnly(post.alnum, text); InTestItem(code, number, |code|)
    ensures first < |text| && TestItem(RustCode.CodeOnly(post.alnum, text), first, last)
    ensures last <= |text| && LineOf(text, first) <= number <= LineOf(text, last)
  {
    hide TestItem, LineOf, RustCode.CodeOnly;
    var code := RustCode.CodeOnly(post.alnum, text);
    first, last :| first < |code| && TestItem(code, first, last) && LineOf(code, first) <= number <= LineOf(code, last);
    SameLines(post.alnum, text, first);
    SameLines(post.alnum, text, last);
  }
}
