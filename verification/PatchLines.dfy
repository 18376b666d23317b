/** Where the lines a hunk changes stand in the file after the patch. */
module PatchLines {
  import opened PyText
  import opened Results
  import opened Chunks
  import opened Patches
  import opened PatchSplit

  /** Lines of the new side among the first `k` body lines. */
  function NewBefore(body: seq<string>, k: nat): nat
    requires k <= |body|
  {
    if k == 0 then 0
    else NewBefore(body, k - 1) + if Begins(body[k - 1], ' ') || Begins(body[k - 1], '+') then 1 else 0
  }

  /** Body line `k` adds or removes a line that is not blank. */
  predicate Counts(body: seq<string>, k: nat)
    requires k < |body|
  {
    (Begins(body[k], '+') || Begins(body[k], '-')) && Strip(body[k][1..]) != ""
  }

  /** The line number that the classifier looks up for body line `k`. */
  function PlaceOf(newStart: nat, body: seq<string>, k: nat): nat
    requires k <= |body|
  {
    newStart + NewBefore(body, k)
  }

  /** The hunk changes a line that is not blank, and all such lines stand within the numbers given. */
  predicate AllWithin(newStart: nat, body: seq<string>, numbers: set<nat>) {
    && (exists k | 0 <= k < |body| :: Counts(body, k))
    && (forall k | 0 <= k < |body| && Counts(body, k) :: PlaceOf(newStart, body, k) in numbers)
  }

  /** `_changes_within`. */
  method ChangesWithin(hunk: string, numbers: set<nat>) returns (r: Result<bool, PatchError>)
    ensures r == match ReadHunk(hunk)
                 case None => Err(MalformedHunkHeader(hunk))
                 case Some(h) => Ok(AllWithin(h.newStart, h.body, numbers))
  {
    hide HunkRange, BodyLines, Strip;
    var range := HunkRange(hunk);
    if range.None? { return Err(MalformedHunkHeader(hunk)); }
    var body := BodyLines(hunk);
    var current: nat := range.value.newStart;
    var placed := false;
    var within := true;
    for k := 0 to |body|
      invariant current == PlaceOf(range.value.newStart, body, k)
      invariant placed <==> exists j | 0 <= j < k :: Counts(body, j)
      invariant within <==> forall j | 0 <= j < k && Counts(body, j) :: PlaceOf(range.value.newStart, body, j) in numbers
    {
      var line := body[k];
      if Begins(line, '+') || Begins(line, '-') {
        if Strip(line[1..]) != "" {
          assert Counts(body, k);
          placed := true;
          within := within && current in numbers;
        }
        if Begins(line, '+') { current := current + 1; }
      } else if Begins(line, ' ') {
        current := current + 1;
      }
    }
    return Ok(placed && within);
  }

  // ---------------------------------------------------------------- what the numbers mean

  /** The side with the sign `+` from body line `j` on holds body line `k` after the lines of that
      side before it, and its lines before `k` are `NewBefore` many. */
  lemma {:induction false} SideAt(body: seq<string>, j: nat, k: nat)
    requires j <= k <= |body|
    ensures NewBefore(body, j) <= NewBefore(body, k)
    ensures |SideFrom(body, '+', j)| >= NewBefore(body, k) - NewBefore(body, j)
    ensures k < |body| && OnSide(body, k, '+') ==>
              var at := NewBefore(body, k) - NewBefore(body, j);
              at < |SideFrom(body, '+', j)| && SideFrom(body, '+', j)[at] == Content(body, k)
    decreases k - j
  {
    hide Content;
    if j < k { SideAt(body, j + 1, k); }
  }

  /** What is above a hunk in the file after the patch. */
  function Above(base: seq<string>, hunks: seq<Hunk>, i: nat): seq<string>
    requires i < |hunks| && forall h | h in hunks :: h.Place() >= 0
  {
    Image(base, AsChunks(hunks)[..i], hunks[i].Place())
  }

  /** The file after the patch. */
  function Patched(base: seq<string>, hunks: seq<Hunk>): seq<string>
    requires forall h | h in hunks :: h.Place() >= 0
  {
    Image(base, AsChunks(hunks), |base|)
  }

  lemma HunkStands(base: seq<string>, hunks: seq<Hunk>, i: nat)
    requires WellFormed(base, hunks, 0, 0) && i < |hunks|
    ensures forall h | h in hunks :: h.Place() >= 0
    ensures var h := hunks[i];
            && h.newCount == |h.After()| && h.oldCount == |h.Before()| && h.Landing() == |Above(base, hunks, i)|
            && Above(base, hunks, i) + h.After() <= Patched(base, hunks)
            && Placed(AsChunks(hunks), 0, |base|)
  {
    HunksLand(base, hunks, i);
    LandingAt(base, hunks, 0, 0, i);
    WellFormedPlaced(base, hunks, 0, 0);
    hide WellFormed, Image, SideFrom, LiesAt, Placed;
    ImageDownTo(base, AsChunks(hunks), |base|, i);
  }

  /** The number looked up for an added line is its line number, from 1, in the file after the patch. */
  lemma AddedLinesArePlaced(base: seq<string>, hunks: seq<Hunk>, i: nat, k: nat)
    requires WellFormed(base, hunks, 0, 0) && i < |hunks| && k < |hunks[i].body| && Begins(hunks[i].body[k], '+')
    ensures forall h | h in hunks :: h.Place() >= 0
    ensures var number := PlaceOf(hunks[i].newStart, hunks[i].body, k);
            1 <= number <= |Patched(base, hunks)| && Patched(base, hunks)[number - 1] == Content(hunks[i].body, k)
  {
    hide WellFormed, Patched, Above, SideFrom, Content, Placed, AsChunks;
    HunkStands(base, hunks, i);
    SideAt(hunks[i].body, 0, k);
  }

  /** `at` is where the lines below body line `k` of hunk `i` start in the file after the patch:
      above it are the file above the hunk, as the hunks before change it, and the lines of the
      hunk's new side before `k`. */
  predicate FollowsAt(base: seq<string>, hunks: seq<Hunk>, i: nat, k: nat, at: nat)
    requires i < |hunks| && k <= |hunks[i].body| && forall h | h in hunks :: h.Place() >= 0
  {
    var kept := NewBefore(hunks[i].body, k);
    && kept <= |hunks[i].After()| && at <= |Patched(base, hunks)|
    && Patched(base, hunks)[..at] == Above(base, hunks, i) + hunks[i].After()[..kept]
  }

  /** The number looked up for a removed line is that of the line that now follows it exactly when
      the hunk leaves a line; else it is the line before, and none at all at the top of the file.
      What follows is the next line of the new side; after the last one it is the line of the base
      below the hunk, or the end of the file, when no other hunk starts right there. */
  lemma RemovedLinesArePlaced(base: seq<string>, hunks: seq<Hunk>, i: nat, k: nat)
    requires WellFormed(base, hunks, 0, 0) && i < |hunks| && k < |hunks[i].body|
    ensures forall h | h in hunks :: h.Place() >= 0
    ensures var (h, result) := (hunks[i], Patched(base, hunks));
            var (number, kept, end) := (PlaceOf(h.newStart, h.body, k), NewBefore(h.body, k), h.Place() + h.oldCount);
            var at := if h.newCount > 0 then number - 1 else number;
            && (h.newCount > 0 ==> number > 0)
            && FollowsAt(base, hunks, i, k, at)
            && (kept < |h.After()| ==> at < |result| && result[at] == h.After()[kept])
            && (kept == |h.After()| && (i + 1 == |hunks| || end < hunks[i + 1].Place()) ==>
                  if end < |base| then at < |result| && result[at] == base[end] else at == |result|)
  {
    hide WellFormed, SideFrom, Placed, Patched, Above, AsChunks;
    var h := hunks[i];
    HunkStands(base, hunks, i);
    SideAt(h.body, 0, k);
    if i + 1 == |hunks| || h.Place() + h.oldCount < hunks[i + 1].Place() { BelowHunk(base, hunks, i); }
    PrefixCut(Patched(base, hunks), Above(base, hunks, i), h.After(), NewBefore(h.body, k));
  }

  lemma PrefixCut(s: seq<string>, a: seq<string>, b: seq<string>, n: nat)
    requires a + b <= s && n <= |b|
    ensures |a| + n <= |s| && s[..|a| + n] == a + b[..n] && (n < |b| ==> |a| + n < |s| && s[|a| + n] == b[n])
  {
    assert s[..|a| + |b|] == a + b;
  }

  lemma BelowHunk(base: seq<string>, hunks: seq<Hunk>, i: nat)
    requires WellFormed(base, hunks, 0, 0) && i < |hunks|
    requires i + 1 == |hunks| || hunks[i].Place() + hunks[i].oldCount < hunks[i + 1].Place()
    ensures forall h | h in hunks :: h.Place() >= 0
    ensures var (at, end) := (|Above(base, hunks, i)| + |hunks[i].After()|, hunks[i].Place() + hunks[i].oldCount);
            var result := Patched(base, hunks);
            if end < |base| then at < |result| && result[at] == base[end] else at == |result|
  {
    hide WellFormed, SideFrom, Placed, Image;
    HunkStands(base, hunks, i);
    AfterChunk(base, AsChunks(hunks), i);
  }

  /** A patch that empties its file: every removed line is looked up at line 0, which no file has. */
  lemma EmptiedFileHasNoPlace(base: seq<string>, h: Hunk, k: nat)
    requires WellFormed(base, [h], 0, 0) && h.newCount == 0 && h.oldCount == |base| > 0 && k < |h.body|
    ensures h.Place() >= 0 && Patched(base, [h]) == [] && PlaceOf(h.newStart, h.body, k) == 0
  {
    HunkStands(base, [h], 0);
    SideAt(h.body, 0, k);
    ImageLength(base, AsChunks([h]), |base|);
  }
}
