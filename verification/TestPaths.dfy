/** Which paths are tests', told from the pieces between their slashes. */
module TestPaths {
  import opened PyText
  import opened Results
  import opened PatchFiles
  import opened PatchSplit
  import opened PatchLines
  import opened PatchSides

  /** `path[i..j]` stands between slashes or the path's ends, and names something. */
  predicate PieceAt(path: string, i: nat, j: nat) {
    && i < j <= |path| && (i == 0 || path[i - 1] == '/') && (j == |path| || path[j] == '/')
    && (forall k | i <= k < j :: path[k] != '/') && path[i..j] != "."
  }

  /** The pieces from `from` on, in order, and nothing but them. */
  ghost predicate ArePieces(path: string, from: nat, at: seq<(nat, nat)>, names: seq<string>) {
    && |names| == |at|
    && (forall k | 0 <= k < |at| :: from <= at[k].0 && PieceAt(path, at[k].0, at[k].1) && names[k] == path[at[k].0..at[k].1])
    && (forall k, m | 0 <= k < m < |at| :: at[k].1 < at[m].0)
    && (forall i: nat, j: nat | from <= i && PieceAt(path, i, j) :: (i, j) in at)
  }

  lemma {:induction false} NamesArePieces(path: string, from: nat, i: nat) returns (at: seq<(nat, nat)>)
    requires StartsPiece(path, from, i)
    ensures ArePieces(path, from, at, Names(path, from, i))
    decreases |path| - i
  {
    hide PieceAt, ArePieces;
    if i < |path| && path[i] != '/' {
      at := NamesArePieces(path, from, i + 1);
    } else if i < |path| {
      var rest := NamesArePieces(path, i + 1, i + 1);
      at := (if PieceAt(path, from, i) then [(from, i)] else []) + rest;
      OnePieceMore(path, from, i, rest, Names(path, i + 1, i + 1));
    } else {
      NothingBehind(path);
      at := if PieceAt(path, from, i) then [(from, i)] else [];
      assert at + [] == at;
      OnePieceMore(path, from, i, [], []);
      var first := if path[from..i] == "" || path[from..i] == "." then [] else [path[from..i]];
      assert first + [] == first;
    }
  }

  /** A piece may start at `from`, and no slash stands before `i`. */
  predicate StartsPiece(path: string, from: nat, i: nat) {
    from <= i <= |path| && (from == 0 || path[from - 1] == '/') && forall k | from <= k < i :: path[k] != '/'
  }

  lemma NothingBehind(path: string)
    ensures ArePieces(path, |path| + 1, [], [])
  {}

  lemma OnePieceMore(path: string, from: nat, i: nat, rest: seq<(nat, nat)>, names: seq<string>)
    requires StartsPiece(path, from, i) && (i == |path| || path[i] == '/') && ArePieces(path, i + 1, rest, names)
    ensures ArePieces(path, from, (if PieceAt(path, from, i) then [(from, i)] else []) + rest,
                      (if path[from..i] == "" || path[from..i] == "." then [] else [path[from..i]]) + names)
  {
    PieceHere(path, from, i);
    forall m: nat, n: nat | from <= m && PieceAt(path, m, n)
      ensures (m == from && n == i) || i + 1 <= m
    {
      FirstOrLater(path, from, i, m, n);
    }
    hide PieceAt, StartsPiece;
  }

  lemma PieceHere(path: string, from: nat, i: nat)
    requires StartsPiece(path, from, i) && (i == |path| || path[i] == '/')
    ensures PieceAt(path, from, i) <==> path[from..i] != "" && path[from..i] != "."
  {}

  /** A piece that starts at or after `from` is the one that ends at the next slash, or starts behind it. */
  lemma FirstOrLater(path: string, from: nat, i: nat, m: nat, n: nat)
    requires StartsPiece(path, from, i) && (i == |path| || path[i] == '/')
    requires from <= m && PieceAt(path, m, n)
    ensures (m == from && n == i) || i + 1 <= m
  {}

  /** No piece follows. */
  ghost predicate IsLastPiece(path: string, i: nat) {
    forall m: nat, n: nat | PieceAt(path, m, n) :: m <= i
  }

  lemma LastPiece(path: string, at: seq<(nat, nat)>, names: seq<string>, k: nat)
    requires ArePieces(path, 0, at, names) && k < |at|
    ensures IsLastPiece(path, at[k].0) <==> k == |at| - 1
  {
    hide PieceAt;
    if k < |at| - 1 {
      assert PieceAt(path, at[k + 1].0, at[k + 1].1);
      PieceIsNotEmpty(path, at[k].0, at[k].1);
    } else {
      forall m: nat, n: nat | PieceAt(path, m, n)
        ensures m <= at[k].0
      {
        assert (m, n) in at;
        var q :| 0 <= q < |at| && at[q] == (m, n);
        if q < k { PieceIsNotEmpty(path, m, n); }
      }
    }
  }

  lemma PieceIsNotEmpty(path: string, i: nat, j: nat)
    requires PieceAt(path, i, j)
    ensures i < j
  {}

  lemma RootIsNoTest()
    ensures !TestName("/") && "/" !in TEST_DIRECTORIES
  {
    assert forall k | 0 <= k <= 1 :: !StartsWithAt("/", ".test.", k) && !StartsWithAt("/", ".spec.", k);
  }

  /** The piece of the path that makes it a test's. */
  ghost predicate MakesTest(path: string, i: nat, j: nat) {
    && PieceAt(path, i, j)
    && if IsLastPiece(path, i) then TestName(path[i..j])
       else path[i..j] == "__tests__" || path[i..j] == "test" || path[i..j] == "tests"
  }

  /** A path is a test's exactly when some piece of it before the last names a test directory, or
      the last one is named like a test; one without pieces, not even the root, has no name. */
  lemma TestPathExactly(path: string)
    ensures IsTestPath(path).None? <==> !StartsWith(path, "/") && forall i: nat, j: nat :: !PieceAt(path, i, j)
    ensures IsTestPath(path) == Some(true) <==> exists i: nat, j: nat :: MakesTest(path, i, j)
  {
    hide TestName, Names, PieceAt, IsLastPiece, MakesTest, ArePieces, IsTestPath;
    var at := NamesArePieces(path, 0, 0);
    var names := Names(path, 0, 0);
    if at == [] {
      NoPieces(path, names);
    } else {
      PiecesDecide(path, at, names);
    }
  }

  lemma NoPieces(path: string, names: seq<string>)
    requires ArePieces(path, 0, [], names) && names == Names(path, 0, 0)
    ensures forall i: nat, j: nat :: !PieceAt(path, i, j)
    ensures IsTestPath(path) == if StartsWith(path, "/") then Some(false) else None
    ensures forall i: nat, j: nat :: !MakesTest(path, i, j)
  {
    hide TestName, PieceAt, Names;
    RootIsNoTest();
  }

  lemma PiecesDecide(path: string, at: seq<(nat, nat)>, names: seq<string>)
    requires at != [] && ArePieces(path, 0, at, names) && names == Names(path, 0, 0)
    ensures IsTestPath(path).Some? && exists i: nat, j: nat :: PieceAt(path, i, j)
    ensures IsTestPath(path) == Some(true) <==> exists i: nat, j: nat :: MakesTest(path, i, j)
  {
    hide TestName, PieceAt, Names, MakesTest, TEST_DIRECTORIES, IsTestPath;
    assert PieceAt(path, at[0].0, at[0].1);
    ByNames(path, names);
    if TestParts(names) {
      var q := |names| - 1;
      if !TestName(names[q]) { q := TestDirectory(names); }
      PieceDecides(path, at, names, q);
      assert MakesTest(path, at[q].0, at[q].1);
    }
    forall i: nat, j: nat | MakesTest(path, i, j)
      ensures TestParts(names)
    {
      TestIsPiece(path, i, j);
      assert (i, j) in at;
      var q :| 0 <= q < |at| && at[q] == (i, j);
      PieceDecides(path, at, names, q);
    }
  }

  /** A directory before the last part is a test directory, or the last part is named like a test. */
  predicate TestParts(parts: seq<string>)
    requires parts != []
  {
    (exists k | 0 <= k < |parts| - 1 :: parts[k] in TEST_DIRECTORIES) || TestName(parts[|parts| - 1])
  }

  lemma ByNames(path: string, names: seq<string>)
    requires names != [] && names == Names(path, 0, 0)
    ensures IsTestPath(path) == Some(TestParts(names))
  {
    hide TestName, Names, TEST_DIRECTORIES;
    RootIsNoTest();
    if StartsWith(path, "/") { NotInFront("/", names); } else { assert [] + names == names; }
  }

  lemma NotInFront(root: string, names: seq<string>)
    requires names != [] && root !in TEST_DIRECTORIES
    ensures TestParts([root] + names) <==> TestParts(names)
  {
    hide TestName, TEST_DIRECTORIES;
    var parts := [root] + names;
    assert forall k | 0 <= k < |names| :: parts[1 + k] == names[k];
    if k :| 0 <= k < |parts| - 1 && parts[k] in TEST_DIRECTORIES { assert names[k - 1] in TEST_DIRECTORIES; }
    if k :| 0 <= k < |names| - 1 && names[k] in TEST_DIRECTORIES { assert parts[1 + k] in TEST_DIRECTORIES; }
  }

  lemma TestIsPiece(path: string, i: nat, j: nat)
    requires MakesTest(path, i, j)
    ensures PieceAt(path, i, j)
  {}

  lemma PieceDecides(path: string, at: seq<(nat, nat)>, names: seq<string>, q: nat)
    requires ArePieces(path, 0, at, names) && q < |at|
    ensures MakesTest(path, at[q].0, at[q].1) <==> if q == |at| - 1 then TestName(names[q]) else names[q] in TEST_DIRECTORIES
  {
    hide TestName, PieceAt, IsLastPiece, TEST_DIRECTORIES;
    LastPiece(path, at, names, q);
    TestDirectories(names[q]);
  }

  lemma TestDirectory(parts: seq<string>) returns (k: nat)
    requires exists k | 0 <= k < |parts| - 1 :: parts[k] in TEST_DIRECTORIES
    ensures k < |parts| - 1 && parts[k] in TEST_DIRECTORIES
  {
    k :| k < |parts| - 1 && parts[k] in TEST_DIRECTORIES;
  }

  lemma TestDirectories(name: string)
    ensures name in TEST_DIRECTORIES <==> name == "__tests__" || name == "test" || name == "tests"
  {}

  // ---------------------------------------------------------------- the class of a file

  lemma HoldsExactly(s: string, part: string)
    ensures Holds(s, part) <==> exists before: string, after: string :: s == before + part + after
  {
    if k :| 0 <= k <= |s| && StartsWithAt(s, part, k) {
      assert s == s[..k] + part + s[k + |part|..];
    }
    if before: string, after: string :| s == before + part + after {
      assert forall k | 0 <= k < |part| :: s[|before| + k] == part[k];
      assert StartsWithAt(s, part, |before|);
    }
  }

  lemma EndsWithExactly(s: string, suffix: string)
    ensures EndsWith(s, suffix) <==> exists front: string :: s == front + suffix
  {
    if EndsWith(s, suffix) { assert s == s[..|s| - |suffix|] + suffix; }
    if front: string :| s == front + suffix { assert s[|s| - |suffix|..] == suffix; }
  }

  /** The glob patterns of test files, `a` and `b` being what their stars match. */
  predicate MatchesPattern(name: string, a: string, b: string) {
    || name == "test_" + a + ".py"
    || name == a + "_test.py"
    || name == a + "_test.go"
    || name == a + ".test." + b
    || name == a + ".spec." + b
  }

  lemma StartsAndEnds(name: string)
    ensures StartsWith(name, "test_") && EndsWith(name, ".py") && |name| >= 8 <==> exists a: string :: name == "test_" + a + ".py"
  {
    if StartsWith(name, "test_") && EndsWith(name, ".py") && |name| >= 8 {
      assert name == "test_" + name[5..|name| - 3] + ".py";
    }
    if a: string :| name == "test_" + a + ".py" {
      assert name[|name| - 3..] == ".py" && "test_" <= name;
    }
  }

  /** A name is a test's exactly when it matches one of the patterns. */
  lemma TestNameExactly(name: string)
    ensures TestName(name) <==> exists a: string, b: string :: MatchesPattern(name, a, b)
  {
    hide StartsWith, EndsWith, Holds;
    StartsAndEnds(name);
    EndsWithExactly(name, "_test.py");
    EndsWithExactly(name, "_test.go");
    HoldsExactly(name, ".test.");
    HoldsExactly(name, ".spec.");
    if TestName(name) {
      if a: string :| name == "test_" + a + ".py" { assert MatchesPattern(name, a, ""); }
      if a: string :| name == a + "_test.py" { assert MatchesPattern(name, a, ""); }
      if a: string :| name == a + "_test.go" { assert MatchesPattern(name, a, ""); }
      if a: string, b: string :| name == a + ".test." + b { assert MatchesPattern(name, a, b); }
      if a: string, b: string :| name == a + ".spec." + b { assert MatchesPattern(name, a, b); }
    }
  }

  /** A Rust file with hunks that the patch leaves in place: its hunks are looked at one by one. */
  ghost predicate LookedInto(file: FilePatch) {
    && (exists front: string :: file.path == front + ".rs") && file.hunks != []
    && !exists before: string, after: string :: file.header == before + "\ndeleted file mode " + after
  }

  /** Which files go whole to a side, and which stop the split. */
  lemma ClassesExactly(file: FilePatch, post: PostImage)
    ensures var (test, c) := (IsTestPath(file.path), ClassOf(file, post));
            && (c == Err(NoName(file.path)) <==> test == None)
            && (c == Ok(Test) <==> test == Some(true))
            && (c == Ok(Source) <==> test == Some(false) && !LookedInto(file))
            && (c == Err(Unreadable(file.path)) <==> test == Some(false) && LookedInto(file) && post.read(file.path) == None)
            && (c.Ok? && c.value.ByHunk? ==> test == Some(false) && LookedInto(file) && post.read(file.path).Some?)
  {
    hide IsTestPath, Flags, TestLinesOf, EndsWith, Holds;
    EndsWithExactly(file.path, ".rs");
    HoldsExactly(file.header, DELETED);
    if post.read(file.path).Some? { FlagsFail(file.hunks, TestLinesOf(post.read(file.path).value, post), 0); }
  }

  lemma {:induction false} FlagsFail(hunks: seq<string>, lines: set<nat>, k: nat)
    requires k <= |hunks|
    ensures Flags(hunks, lines, k).Err? ==> Flags(hunks, lines, k).error.BadHunk?
    decreases |hunks| - k
  {
    hide ReadHunk, AllWithin;
    if k < |hunks| { FlagsFail(hunks, lines, k + 1); }
  }
}
