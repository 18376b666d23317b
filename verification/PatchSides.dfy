/** The split of a whole Git patch into its tests and its sources. */
module PatchSides {
  import opened PyText
  import opened Results
  import opened Seqs
  import opened Chunks
  import opened Patches
  import opened PatchSplit
  import opened PatchLines
  import opened PatchFiles
  import opened RustTests
  import RustCode

  // ---------------------------------------------------------------- test paths

  const TEST_DIRECTORIES := {"__tests__", "test", "tests"}

  /** The piece of a path that starts at `from`, which has no slash before `i`, and those after it;
      empty pieces and dots name nothing. */
  function Names(path: string, from: nat, i: nat): seq<string>
    requires from <= i <= |path|
    decreases |path| - i
  {
    if i < |path| && path[i] != '/' then Names(path, from, i + 1)
    else
      (if path[from..i] == "" || path[from..i] == "." then [] else [path[from..i]])
      + (if i < |path| then Names(path, i + 1, i + 1) else [])
  }

  /** `PurePosixPath(path).parts`; what a leading slash is called does not matter here. */
  function PathParts(path: string): seq<string> {
    (if StartsWith(path, "/") then ["/"] else []) + Names(path, 0, 0)
  }

  predicate EndsWith(s: string, suffix: string) {
    |suffix| <= |s| && s[|s| - |suffix|..] == suffix
  }

  predicate Holds(s: string, part: string) {
    exists k | 0 <= k <= |s| :: StartsWithAt(s, part, k)
  }

  /** The name patterns of test files. */
  predicate TestName(name: string) {
    || (StartsWith(name, "test_") && EndsWith(name, ".py") && |name| >= 8)
    || EndsWith(name, "_test.py") || EndsWith(name, "_test.go")
    || Holds(name, ".test.") || Holds(name, ".spec.")
  }

  /** `is_test_path`; nothing for a path without a name, where the source stops with `ValueError`. */
  function IsTestPath(path: string): Option<bool> {
    var parts := PathParts(path);
    if parts == [] then None
    else
      var n := |parts| - 1;
      Some((exists k | 0 <= k < n :: parts[k] in TEST_DIRECTORIES) || TestName(parts[n]))
  }

  // ---------------------------------------------------------------- classifying a file

  /** The file after the patch, by path, or nothing where it cannot be read; and `str.isalnum`. */
  datatype PostImage = PostImage(read: string -> Option<string>, alnum: char -> bool)

  datatype SplitError = NoName(path: string) | Unreadable(path: string) | BadHunk(error: PatchError)

  /** How one file is classified: as a test, as a source, or hunk by hunk. */
  datatype Class = Test | Source | ByHunk(flags: seq<bool>)

  const DELETED := "\ndeleted file mode "

  /** The numbers of the test lines of the file after the patch. */
  ghost function TestLinesOf(text: string, post: PostImage): set<nat> {
    TestLines(RustCode.CodeOnly(post.alnum, text))
  }

  /** `[_changes_within(hunk, lines) for hunk in hunks]`, from hunk `k` on. */
  function Flags(hunks: seq<string>, lines: set<nat>, k: nat): (r: Result<seq<bool>, SplitError>)
    requires k <= |hunks|
    ensures r.Ok? ==> |r.value| == |hunks| - k
    decreases |hunks| - k
  {
    if k == |hunks| then Ok([])
    else
      match ReadHunk(hunks[k])
      case None => Err(BadHunk(MalformedHunkHeader(hunks[k])))
      case Some(h) =>
        match Flags(hunks, lines, k + 1)
        case Err(e) => Err(e)
        case Ok(rest) => Ok([AllWithin(h.newStart, h.body, lines)] + rest)
  }

  ghost function ClassOf(file: FilePatch, post: PostImage): (r: Result<Class, SplitError>)
    ensures r.Ok? && r.value.ByHunk? ==> |r.value.flags| == |file.hunks| > 0
  {
    match IsTestPath(file.path)
    case None => Err(NoName(file.path))
    case Some(test) =>
      if test then Ok(Test)
      else if !EndsWith(file.path, ".rs") || file.hunks == [] || Holds(file.header, DELETED) then Ok(Source)
      else
        match post.read(file.path)
        case None => Err(Unreadable(file.path))
        case Some(text) =>
          match Flags(file.hunks, TestLinesOf(text, post), 0)
          case Err(e) => Err(e)
          case Ok(flags) => Ok(ByHunk(flags))
  }

  function Joined(done: seq<bool>, r: Result<seq<bool>, SplitError>): Result<seq<bool>, SplitError> {
    match r
    case Err(e) => Err(e)
    case Ok(rest) => Ok(done + rest)
  }

  method FlagHunks(hunks: seq<string>, lines: set<nat>) returns (r: Result<seq<bool>, SplitError>)
    ensures r == Flags(hunks, lines, 0)
  {
    hide ReadHunk, AllWithin;
    var flags: seq<bool> := [];
    ghost var all := Flags(hunks, lines, 0);
    assert all.Ok? ==> [] + all.value == all.value;
    for k := 0 to |hunks|
      invariant all == Joined(flags, Flags(hunks, lines, k))
    {
      var within := ChangesWithin(hunks[k], lines);
      if within.Err? { return Err(BadHunk(within.error)); }
      ghost var rest := Flags(hunks, lines, k + 1);
      if rest.Ok? { Regroup(flags, [within.value], rest.value); }
      flags := flags + [within.value];
    }
    assert flags + [] == flags;
    return Ok(flags);
  }

  method Classify(file: FilePatch, post: PostImage) returns (r: Result<Class, SplitError>)
    ensures r == ClassOf(file, post)
  {
    hide IsTestPath, TestLines, Flags, EndsWith, Holds;
    var test := IsTestPath(file.path);
    if test.None? { return Err(NoName(file.path)); }
    if test.value { return Ok(Test); }
    if !EndsWith(file.path, ".rs") || file.hunks == [] || Holds(file.header, DELETED) { return Ok(Source); }
    var text := post.read(file.path);
    if text.None? { return Err(Unreadable(file.path)); }
    var lines := RustTestLines(post.alnum, text.value);
    var flags := FlagHunks(file.hunks, lines);
    if flags.Err? { return Err(flags.error); }
    return Ok(ByHunk(flags.value));
  }

  // ---------------------------------------------------------------- splitting the files

  /** `_keep_hunks` on the header: the `index` line goes, its blob no longer matches. */
  function WithoutIndex(lines: seq<string>): string {
    if lines == [] then ""
    else (if StartsWith(lines[0], "index ") then "" else lines[0]) + WithoutIndex(lines[1..])
  }

  function KeepFile(file: FilePatch, flags: seq<bool>, keep: bool): Result<FilePatch, SplitError>
    requires |flags| == |file.hunks|
  {
    match KeepTexts(file.hunks, flags, keep, 0, 0)
    case Err(e) => Err(BadHunk(e))
    case Ok(hunks) => Ok(FilePatch(file.path, WithoutIndex(LinesFrom(file.header, 0)), hunks))
  }

  datatype Sides = Sides(tests: seq<FilePatch>, sources: seq<FilePatch>)

  predicate AllAre(flags: seq<bool>, flag: bool) {
    forall k | 0 <= k < |flags| :: flags[k] == flag
  }

  predicate IsTest(c: Class) {
    c.Test? || (c.ByHunk? && AllAre(c.flags, true))
  }

  predicate IsSource(c: Class) {
    c.Source? || (c.ByHunk? && AllAre(c.flags, false))
  }

  /** What one file adds to the two sides. */
  function SidesAs(file: FilePatch, c: Class): Result<Sides, SplitError>
    requires c.ByHunk? ==> |c.flags| == |file.hunks|
  {
    if IsTest(c) then Ok(Sides([file], []))
    else if IsSource(c) then Ok(Sides([], [file]))
    else
      match KeepFile(file, c.flags, true)
      case Err(e) => Err(e)
      case Ok(tests) =>
        match KeepFile(file, c.flags, false)
        case Err(e) => Err(e)
        case Ok(sources) => Ok(Sides([tests], [sources]))
  }

  ghost function SidesOf(file: FilePatch, post: PostImage): Result<Sides, SplitError> {
    match ClassOf(file, post)
    case Err(e) => Err(e)
    case Ok(c) => SidesAs(file, c)
  }

  function After(done: Sides, r: Result<Sides, SplitError>): Result<Sides, SplitError> {
    match r
    case Err(e) => Err(e)
    case Ok(rest) => Ok(Sides(done.tests + rest.tests, done.sources + rest.sources))
  }

  ghost function SplitFrom(files: seq<FilePatch>, post: PostImage, k: nat): Result<Sides, SplitError>
    requires k <= |files|
    decreases |files| - k
  {
    if k == |files| then Ok(Sides([], []))
    else
      match SidesOf(files[k], post)
      case Err(e) => Err(e)
      case Ok(one) => After(one, SplitFrom(files, post, k + 1))
  }

  /** `_keep_hunks`. */
  method KeepInFile(file: FilePatch, flags: seq<bool>, keep: bool) returns (r: Result<FilePatch, SplitError>)
    requires |flags| == |file.hunks|
    ensures r == KeepFile(file, flags, keep)
  {
    var kept := KeepHunks(file.hunks, flags, keep);
    if kept.Err? { return Err(BadHunk(kept.error)); }
    return Ok(FilePatch(file.path, WithoutIndex(LinesFrom(file.header, 0)), kept.value));
  }

  /** `split_patch`. */
  method SplitPatch(files: seq<FilePatch>, post: PostImage) returns (r: Result<Sides, SplitError>)
    ensures r == SplitFrom(files, post, 0)
  {
    hide ClassOf, KeepFile;
    var tests: seq<FilePatch> := [];
    var sources: seq<FilePatch> := [];
    ghost var all := SplitFrom(files, post, 0);
    AfterNothing(all);
    for k := 0 to |files|
      invariant all == After(Sides(tests, sources), SplitFrom(files, post, k))
    {
      var kind := Classify(files[k], post);
      if kind.Err? { return Err(kind.error); }
      var one: Sides;
      if IsTest(kind.value) {
        one := Sides([files[k]], []);
      } else if IsSource(kind.value) {
        one := Sides([], [files[k]]);
      } else {
        var kept := KeepInFile(files[k], kind.value.flags, true);
        if kept.Err? { return Err(kept.error); }
        var rest := KeepInFile(files[k], kind.value.flags, false);
        if rest.Err? { return Err(rest.error); }
        one := Sides([kept.value], [rest.value]);
      }
      AfterOne(Sides(tests, sources), one, SplitFrom(files, post, k + 1));
      tests, sources := tests + one.tests, sources + one.sources;
    }
    assert tests + [] == tests && sources + [] == sources;
    return Ok(Sides(tests, sources));
  }

  lemma AfterNothing(r: Result<Sides, SplitError>)
    ensures After(Sides([], []), r) == r
  {
    if r.Ok? { assert [] + r.value.tests == r.value.tests && [] + r.value.sources == r.value.sources; }
  }

  lemma AfterOne(done: Sides, one: Sides, r: Result<Sides, SplitError>)
    ensures After(done, After(one, r)) == After(Sides(done.tests + one.tests, done.sources + one.sources), r)
  {
    if r.Ok? {
      Regroup(done.tests, one.tests, r.value.tests);
      Regroup(done.sources, one.sources, r.value.sources);
    }
  }

  // ---------------------------------------------------------------- the header of a file that is cut

  /** The lines at these places, one after the other. */
  function LinesAt(lines: seq<string>, places: seq<nat>): string
    requires forall k | 0 <= k < |places| :: places[k] < |lines|
  {
    if places == [] then "" else lines[places[0]] + LinesAt(lines, places[1..])
  }

  /** The places from `from` on of the lines that are no `index` line, in order. */
  predicate OtherPlaces(lines: seq<string>, from: nat, places: seq<nat>) {
    && (forall k | 0 <= k < |places| :: from <= places[k] < |lines| && !StartsWith(lines[places[k]], "index "))
    && (forall k, m | 0 <= k < m < |places| :: places[k] < places[m])
    && (forall n: nat | from <= n < |lines| && !StartsWith(lines[n], "index ") :: n in places)
  }

  /** The header of a file cut in two loses its `index` lines and nothing else. */
  lemma {:induction false} OnlyIndexLinesGo(lines: seq<string>, from: nat) returns (places: seq<nat>)
    requires from <= |lines|
    ensures OtherPlaces(lines, from, places) && WithoutIndex(lines[from..]) == LinesAt(lines, places)
    decreases |lines| - from
  {
    hide StartsWith, OtherPlaces, WithoutIndex;
    places := [];
    NoPlaces(lines);
    if from < |lines| {
      var rest := OnlyIndexLinesGo(lines, from + 1);
      assert lines[from..] == [lines[from]] + lines[from + 1..];
      WithoutOne(lines[from], lines[from + 1..]);
      if StartsWith(lines[from], "index ") {
        IndexHere(lines, from, rest);
        places := rest;
      } else {
        OtherHere(lines, from, rest);
        places := [from] + rest;
      }
    }
  }

  lemma NoPlaces(lines: seq<string>)
    ensures OtherPlaces(lines, |lines|, []) && WithoutIndex(lines[|lines|..]) == ""
  {}

  lemma WithoutOne(line: string, rest: seq<string>)
    ensures WithoutIndex([line] + rest) == if StartsWith(line, "index ") then WithoutIndex(rest) else line + WithoutIndex(rest)
  {
    hide StartsWith;
    assert ([line] + rest)[1..] == rest;
    assert "" + WithoutIndex(rest) == WithoutIndex(rest);
  }

  lemma IndexHere(lines: seq<string>, from: nat, rest: seq<nat>)
    requires from < |lines| && OtherPlaces(lines, from + 1, rest) && StartsWith(lines[from], "index ")
    ensures OtherPlaces(lines, from, rest)
  {
    hide StartsWith;
  }

  lemma OtherHere(lines: seq<string>, from: nat, rest: seq<nat>)
    requires from < |lines| && OtherPlaces(lines, from + 1, rest) && !StartsWith(lines[from], "index ")
    ensures OtherPlaces(lines, from, [from] + rest)
    ensures LinesAt(lines, [from] + rest) == lines[from] + LinesAt(lines, rest)
  {
    hide StartsWith, LinesAt;
    var places := [from] + rest;
    forall n: nat | from <= n < |lines| && !StartsWith(lines[n], "index ")
      ensures n in places
    {
      if n > from { assert n in rest; }
    }
    OneLineMore(lines, from, rest);
  }

  lemma OneLineMore(lines: seq<string>, from: nat, rest: seq<nat>)
    requires from < |lines| && forall k | 0 <= k < |rest| :: rest[k] < |lines|
    ensures LinesAt(lines, [from] + rest) == lines[from] + LinesAt(lines, rest)
  {
    assert ([from] + rest)[1..] == rest;
  }

  // ---------------------------------------------------------------- nothing is lost or doubled

  /** Rewriting a header leaves the body of the hunk alone, whatever the shift. */
  lemma RewriteKeepsBody(text: string, r: Range, shift: int)
    requires HunkRange(text) == Some(r)
    ensures BodyLines(Rewrite(text, r, shift)) == BodyLines(text)
  {
    hide BodyLines, LinesFrom, LineEnd, NextLine, PrintHeader, NoNewline;
    hide HunkRange;
    HeaderHasNoNewline(text);
    var rest := text[r.end..];
    var front := Cut(text, r.end);
    HeaderIsOneLine(r.oldStart, r.oldCount, r.newStart - shift, r.newCount, rest);
    BodyAfterHeader(front, rest);
    BodyAfterHeader(PrintHeader(r.oldStart, r.oldCount, r.newStart - shift, r.newCount), rest);
  }

  lemma HeaderIsOneLine(oldStart: nat, oldCount: nat, newStart: int, newCount: nat, rest: string)
    ensures var head := PrintHeader(oldStart, oldCount, newStart, newCount); NoNewline(head + rest, 0, |head|)
  {
    PrintedRangeHasNoNewline(oldStart, oldCount);
    PrintedRangeHasNoNewline(newStart, newCount);
    hide PrintRange;
  }

  lemma PrintedRangeHasNoNewline(start: int, count: nat)
    ensures OneLine(PrintRange(start, count))
  {}

  /** What a hunk does, with the path of its file; a file without hunks is its header. */
  datatype Piece = Edit(path: string, body: seq<string>) | Whole(path: string, header: string)

  function EditsOf(path: string, hunks: seq<string>): multiset<Piece> {
    if hunks == [] then multiset{} else multiset{Edit(path, BodyLines(hunks[0]))} + EditsOf(path, hunks[1..])
  }

  function PiecesOf(files: seq<FilePatch>): multiset<Piece> {
    if files == [] then multiset{}
    else
      (if files[0].hunks == [] then multiset{Whole(files[0].path, files[0].header)} else EditsOf(files[0].path, files[0].hunks))
      + PiecesOf(files[1..])
  }

  function ChangedIn(hunks: seq<string>): nat {
    if hunks == [] then 0 else ChangedLines(BodyLines(hunks[0])) + ChangedIn(hunks[1..])
  }

  /** `Patch.changed_lines`. */
  function ChangedOf(files: seq<FilePatch>): nat {
    if files == [] then 0 else ChangedIn(files[0].hunks) + ChangedOf(files[1..])
  }

  /** The hunks on the two sides `a` and `b` are those of `whole`, each on one side, and so are the
      changed lines. */
  ghost predicate HunksShared(path: string, a: seq<string>, b: seq<string>, whole: seq<string>) {
    && EditsOf(path, a) + EditsOf(path, b) == EditsOf(path, whole)
    && ChangedIn(a) + ChangedIn(b) == ChangedIn(whole)
  }

  lemma OneHunkMore(path: string, hunk: string, moved: string, a: seq<string>, b: seq<string>, whole: seq<string>)
    requires HunksShared(path, a, b, whole) && BodyLines(moved) == BodyLines(hunk)
    ensures HunksShared(path, [moved] + a, b, [hunk] + whole) && HunksShared(path, b, [moved] + a, [hunk] + whole)
  {
    hide BodyLines, ChangedLines;
    assert ([hunk] + whole)[1..] == whole && ([moved] + a)[1..] == a;
  }

  lemma SharedSwaps(path: string, a: seq<string>, b: seq<string>, whole: seq<string>)
    requires HunksShared(path, a, b, whole)
    ensures HunksShared(path, b, a, whole)
  {}

  lemma NothingShared(path: string)
    ensures HunksShared(path, [], [], [])
  {}

  lemma {:induction false} KeptHunksAreShared(path: string, texts: seq<string>, flags: seq<bool>, k: nat, d: int, e: int)
    requires |texts| == |flags| && k <= |texts|
    requires KeepTexts(texts, flags, true, k, d).Ok? && KeepTexts(texts, flags, false, k, e).Ok?
    ensures HunksShared(path, KeepTexts(texts, flags, true, k, d).value, KeepTexts(texts, flags, false, k, e).value, texts[k..])
    decreases |texts| - k
  {
    hide HunksShared, HunkRange, Rewrite;
    if k == |texts| {
      NothingShared(path);
    } else {
      var r := HunkRange(texts[k]).value;
      var growth := r.newCount - r.oldCount;
      assert texts[k..] == [texts[k]] + texts[k + 1..];
      if flags[k] {
        KeptHunksAreShared(path, texts, flags, k + 1, d, e + growth);
        RewriteKeepsBody(texts[k], r, d);
        var tests, sources := KeepTexts(texts, flags, true, k + 1, d).value, KeepTexts(texts, flags, false, k + 1, e + growth).value;
        OneHunkMore(path, texts[k], Rewrite(texts[k], r, d), tests, sources, texts[k + 1..]);
      } else {
        KeptHunksAreShared(path, texts, flags, k + 1, d + growth, e);
        RewriteKeepsBody(texts[k], r, e);
        var tests, sources := KeepTexts(texts, flags, true, k + 1, d + growth).value, KeepTexts(texts, flags, false, k + 1, e).value;
        SharedSwaps(path, tests, sources, texts[k + 1..]);
        OneHunkMore(path, texts[k], Rewrite(texts[k], r, e), sources, tests, texts[k + 1..]);
      }
    }
  }

  /** What is in `whole` is on one of the two sides, once. */
  ghost predicate Shared(s: Sides, whole: seq<FilePatch>) {
    && PiecesOf(s.tests) + PiecesOf(s.sources) == PiecesOf(whole)
    && ChangedOf(s.tests) + ChangedOf(s.sources) == ChangedOf(whole)
  }

  lemma {:induction false} PiecesConcat(a: seq<FilePatch>, b: seq<FilePatch>)
    ensures PiecesOf(a + b) == PiecesOf(a) + PiecesOf(b) && ChangedOf(a + b) == ChangedOf(a) + ChangedOf(b)
    decreases |a|
  {
    hide EditsOf, ChangedIn;
    if a == [] {
      assert a + b == b;
    } else {
      assert (a + b)[1..] == a[1..] + b;
      PiecesConcat(a[1..], b);
    }
  }

  lemma OneFile(file: FilePatch)
    ensures ChangedOf([file]) == ChangedIn(file.hunks)
    ensures file.hunks != [] ==> PiecesOf([file]) == EditsOf(file.path, file.hunks)
  {
    hide EditsOf, ChangedIn;
    assert [file][1..] == [];
  }

  lemma {:induction false} KeptSome(texts: seq<string>, flags: seq<bool>, keep: bool, k: nat, d: int, i: nat)
    requires |texts| == |flags| && k <= i < |texts| && flags[i] == keep && KeepTexts(texts, flags, keep, k, d).Ok?
    ensures KeepTexts(texts, flags, keep, k, d).value != []
    decreases i - k
  {
    hide HunkRange, Rewrite;
    if k < i {
      var r := HunkRange(texts[k]).value;
      KeptSome(texts, flags, keep, k + 1, if flags[k] != keep then d + r.newCount - r.oldCount else d, i);
    }
  }

  lemma SidesShare(file: FilePatch, c: Class)
    requires c.ByHunk? ==> |c.flags| == |file.hunks|
    requires SidesAs(file, c).Ok?
    ensures Shared(SidesAs(file, c).value, [file])
  {
    hide KeepTexts, WithoutIndex, LinesFrom, EditsOf, ChangedIn;
    if !IsTest(c) && !IsSource(c) {
      hide PiecesOf, ChangedOf;
      var one := SidesAs(file, c).value;
      KeptHunksAreShared(file.path, file.hunks, c.flags, 0, 0, 0);
      assert file.hunks[0..] == file.hunks;
      var i :| 0 <= i < |c.flags| && c.flags[i];
      var j :| 0 <= j < |c.flags| && !c.flags[j];
      KeptSome(file.hunks, c.flags, true, 0, 0, i);
      KeptSome(file.hunks, c.flags, false, 0, 0, j);
      OneFile(file);
      OneFile(one.tests[0]);
      OneFile(one.sources[0]);
      assert one.tests == [one.tests[0]] && one.sources == [one.sources[0]];
    }
  }

  lemma OneFileMore(file: FilePatch, one: Sides, rest: Sides, files: seq<FilePatch>)
    requires Shared(one, [file]) && Shared(rest, files)
    ensures Shared(Sides(one.tests + rest.tests, one.sources + rest.sources), [file] + files)
  {
    hide PiecesOf, ChangedOf;
    PiecesConcat(one.tests, rest.tests);
    PiecesConcat(one.sources, rest.sources);
    PiecesConcat([file], files);
  }

  lemma NoFilesShared()
    ensures Shared(Sides([], []), [])
  {}

  lemma {:induction false} SplitShares(files: seq<FilePatch>, post: PostImage, k: nat)
    requires k <= |files| && SplitFrom(files, post, k).Ok?
    ensures Shared(SplitFrom(files, post, k).value, files[k..])
    decreases |files| - k
  {
    hide Shared, ClassOf, SidesAs;
    if k == |files| {
      NoFilesShared();
    } else {
      SplitShares(files, post, k + 1);
      SidesShare(files[k], ClassOf(files[k], post).value);
      assert files[k..] == [files[k]] + files[k + 1..];
      OneFileMore(files[k], SidesOf(files[k], post).value, SplitFrom(files, post, k + 1).value, files[k + 1..]);
    }
  }

  /** Splitting a patch puts every hunk, with its path and its body, every file without hunks and
      every changed line on exactly one side. */
  lemma SplitConserves(files: seq<FilePatch>, post: PostImage)
    requires SplitFrom(files, post, 0).Ok?
    ensures Shared(SplitFrom(files, post, 0).value, files)
  {
    SplitShares(files, post, 0);
    assert files[0..] == files;
  }

  /** A file that is all test or all source is on that side as it is, and a mixed one leaves on each
      side the hunks that belong there. */
  lemma {:induction false} FilesGoWhereTheyBelong(files: seq<FilePatch>, post: PostImage, k: nat, from: nat)
    requires from <= k < |files| && SplitFrom(files, post, from).Ok?
    ensures ClassOf(files[k], post).Ok?
    ensures var (s, c) := (SplitFrom(files, post, from).value, ClassOf(files[k], post).value);
            && (c.Test? || (c.ByHunk? && forall j | 0 <= j < |c.flags| :: c.flags[j]) ==> files[k] in s.tests)
            && (c.Source? || (c.ByHunk? && forall j | 0 <= j < |c.flags| :: !c.flags[j]) ==> files[k] in s.sources)
            && ((exists i, j | 0 <= i < |files[k].hunks| && 0 <= j < |files[k].hunks| :: c.ByHunk? && c.flags[i] && !c.flags[j]) ==>
                  && KeepFile(files[k], c.flags, true).Ok? && KeepFile(files[k], c.flags, true).value in s.tests
                  && KeepFile(files[k], c.flags, false).Ok? && KeepFile(files[k], c.flags, false).value in s.sources)
    decreases k - from
  {
    hide ClassOf, KeepFile;
    if from < k {
      FilesGoWhereTheyBelong(files, post, k, from + 1);
    } else {
      var c := ClassOf(files[k], post).value;
      if c.ByHunk? && |c.flags| > 0 { assert c.flags[0] || !c.flags[0]; }
    }
  }
}
