/** Who pushed to a pull request's branch, read from GitHub's record of branch updates. */
module Pushes {
  import opened Results

  datatype Push = Push(before: string, after: string, activity: string, actor: Option<string>)

  /** What the decision reads: updates are listed newest first; `fold` is Python's `casefold`. */
  datatype Snapshot = Snapshot(login: Option<string>, head: string, expected: string, pushes: seq<Push>, fold: string -> string)

  // ---------------------------------------------------------------- the unbounded reading

  /** The newest update that produced commit `c`. */
  predicate IsNewest(s: Snapshot, c: string, i: nat) {
    i < |s.pushes| && s.fold(s.pushes[i].after) == c && forall j | 0 <= j < i :: s.fold(s.pushes[j].after) != c
  }

  /** A plain push by a known account other than the publishing one. */
  predicate ByOther(s: Snapshot, push: Push) {
    && push.activity == "push" && push.actor.Some? && s.login.Some?
    && s.fold(push.actor.value) != s.fold(s.login.value)
  }

  /** `path` leads back from commit `c` to commit `to`, each time by the newest update that
      produced the commit, and every one of them was pushed by another account. */
  ghost predicate LeadsBack(s: Snapshot, path: seq<nat>, c: string, to: string) {
    if path == [] then c == to
    else
      && IsNewest(s, c, path[0]) && ByOther(s, s.pushes[path[0]])
      && LeadsBack(s, path[1..], s.fold(s.pushes[path[0]].before), to)
  }

  /** The head was reached from the prepared commit by other accounts' pushes alone. */
  ghost predicate OthersLedToHead(s: Snapshot) {
    s.login.Some? && exists path :: LeadsBack(s, path, s.fold(s.head), s.fold(s.expected))
  }

  // ---------------------------------------------------------------- the walk

  function FirstFrom(s: Snapshot, c: string, i: nat): (r: Option<nat>)
    requires i <= |s.pushes|
    ensures r.Some? ==> r.value < |s.pushes|
    decreases |s.pushes| - i
  {
    if i == |s.pushes| then None else if s.fold(s.pushes[i].after) == c then Some(i) else FirstFrom(s, c, i + 1)
  }

  /** One step of the walk. */
  function Step(s: Snapshot, c: string): Option<string> {
    match FirstFrom(s, c, 0)
    case None => None
    case Some(i) =>
      var push := s.pushes[i];
      if push.activity != "push" || push.actor.None? || s.login.None? || s.fold(push.actor.value) == s.fold(s.login.value)
      then None else Some(s.fold(push.before))
  }

  function Walk(s: Snapshot, c: string, k: nat): Option<string>
    decreases k
  {
    if k == 0 then Some(c)
    else match Step(s, c) case None => None case Some(d) => Walk(s, d, k - 1)
  }

  lemma {:induction false} FirstIsNewest(s: Snapshot, c: string, i: nat)
    requires i <= |s.pushes| && forall j | 0 <= j < i :: s.fold(s.pushes[j].after) != c
    ensures match FirstFrom(s, c, i)
            case None => forall j | 0 <= j < |s.pushes| :: s.fold(s.pushes[j].after) != c
            case Some(k) => IsNewest(s, c, k)
    decreases |s.pushes| - i
  {
    if i < |s.pushes| && s.fold(s.pushes[i].after) != c { FirstIsNewest(s, c, i + 1); }
  }

  lemma {:induction false} PathIsWalk(s: Snapshot, path: seq<nat>, c: string, to: string)
    requires LeadsBack(s, path, c, to)
    ensures Walk(s, c, |path|) == Some(to)
    decreases |path|
  {
    if path != [] {
      FirstIsNewest(s, c, 0);
      PathIsWalk(s, path[1..], s.fold(s.pushes[path[0]].before), to);
    }
  }

  lemma {:induction false} WalkIsPath(s: Snapshot, c: string, k: nat, to: string) returns (path: seq<nat>)
    requires Walk(s, c, k) == Some(to)
    ensures LeadsBack(s, path, c, to)
    decreases k
  {
    path := [];
    if k > 0 {
      FirstIsNewest(s, c, 0);
      var rest := WalkIsPath(s, Step(s, c).value, k - 1, to);
      path := [FirstFrom(s, c, 0).value] + rest;
    }
  }

  // ---------------------------------------------------------------- the pigeonhole

  lemma {:induction false} WalkAdds(s: Snapshot, c: string, i: nat, k: nat)
    ensures Walk(s, c, i + k) == match Walk(s, c, i) case None => None case Some(d) => Walk(s, d, k)
    decreases i
  {
    hide Step;
    if i > 0 && Step(s, c).Some? { WalkAdds(s, Step(s, c).value, i - 1, k); }
  }

  /** Commits that some update produced. */
  function Produced(s: Snapshot, n: nat): (r: set<string>)
    requires n <= |s.pushes|
    ensures |r| <= n && forall i | 0 <= i < n :: s.fold(s.pushes[i].after) in r
  {
    if n == 0 then {} else Produced(s, n - 1) + {s.fold(s.pushes[n - 1].after)}
  }

  /** The first `n` commits of the walk. */
  function Visited(s: Snapshot, c: string, n: nat): set<string> {
    if n == 0 then {}
    else Visited(s, c, n - 1) + (match Walk(s, c, n - 1) case None => {} case Some(d) => {d})
  }

  lemma {:induction false} VisitedAre(s: Snapshot, c: string, n: nat, d: string)
    ensures d in Visited(s, c, n) <==> exists i: nat | i < n :: Walk(s, c, i) == Some(d)
    decreases n
  {
    hide Walk;
    if n > 0 {
      var m: nat := n - 1;
      VisitedAre(s, c, m, d);
      assert d in Visited(s, c, n) <==> d in Visited(s, c, m) || Walk(s, c, m) == Some(d);
      if i: nat :| i < n && Walk(s, c, i) == Some(d) { assert i < m || i == m; }
    }
  }

  /** On the shortest walk no commit comes twice. */
  lemma ShortestHasNoCycle(s: Snapshot, c: string, to: string, k: nat, i: nat, j: nat)
    requires Walk(s, c, k) == Some(to) && forall m: nat | m < k :: Walk(s, c, m) != Some(to)
    requires i < j < k
    ensures Walk(s, c, i).Some? && Walk(s, c, i) != Walk(s, c, j)
  {
    hide Walk;
    WalkAdds(s, c, i, k - i);
    WalkAdds(s, c, j, k - j);
    WalkAdds(s, c, i, k - j);
  }

  lemma {:induction false} VisitedCount(s: Snapshot, c: string, to: string, k: nat, n: nat)
    requires Walk(s, c, k) == Some(to) && forall m: nat | m < k :: Walk(s, c, m) != Some(to)
    requires n <= k
    ensures |Visited(s, c, n)| == n && Visited(s, c, n) <= Produced(s, |s.pushes|)
    decreases n
  {
    if n > 0 {
      VisitedCount(s, c, to, k, n - 1);
      WalkAdds(s, c, n - 1, k - (n - 1));
      var d := Walk(s, c, n - 1).value;
      assert Walk(s, d, k - (n - 1)).Some? && Step(s, d).Some?;
      FirstIsNewest(s, d, 0);
      assert d in Produced(s, |s.pushes|);
      hide Walk, Step;
      forall i: nat | i < n - 1
        ensures Walk(s, c, i) != Some(d)
      {
        ShortestHasNoCycle(s, c, to, k, i, n - 1);
      }
      VisitedAre(s, c, n - 1, d);
    }
  }

  lemma Subset(a: set<string>, b: set<string>)
    requires a <= b
    ensures |a| <= |b|
  {
    assert b == a + (b - a);
  }

  lemma {:induction false} Shortest(s: Snapshot, c: string, to: string, k: nat) returns (least: nat)
    requires Walk(s, c, k) == Some(to)
    ensures least <= k && Walk(s, c, least) == Some(to) && forall m: nat | m < least :: Walk(s, c, m) != Some(to)
  {
    hide Walk;
    least := k;
    if m: nat :| m < k && Walk(s, c, m) == Some(to) { least := Shortest(s, c, to, m); }
  }

  /** The number of updates bounds every walk that arrives, cycles and restored commits included. */
  lemma ShortWalkArrives(s: Snapshot, c: string, to: string, k: nat) returns (least: nat)
    requires Walk(s, c, k) == Some(to)
    ensures least <= |s.pushes| && Walk(s, c, least) == Some(to)
  {
    hide Walk;
    least := Shortest(s, c, to, k);
    VisitedCount(s, c, to, least, least);
    Subset(Visited(s, c, least), Produced(s, |s.pushes|));
  }

  // ---------------------------------------------------------------- the Python loop

  lemma StuckWalk(s: Snapshot, c: string, i: nat, k: nat)
    requires Walk(s, c, i).Some? && Step(s, Walk(s, c, i).value).None? && i < k
    ensures Walk(s, c, k).None?
  {
    WalkAdds(s, c, i, k - i);
  }

  lemma OneStepOn(s: Snapshot, c: string, i: nat)
    requires Walk(s, c, i).Some?
    ensures Walk(s, c, i + 1) == Step(s, Walk(s, c, i).value)
  {
    WalkAdds(s, c, i, 1);
    var d := Walk(s, c, i).value;
    assert Walk(s, d, 1) == match Step(s, d) case None => None case Some(e) => Walk(s, e, 0);
  }

  /** `_pushed_by_others`: the map is filled oldest last, so the newest update of a commit stays. */
  method PushedByOthers(s: Snapshot) returns (others: bool)
    ensures others <==> OthersLedToHead(s)
  {
    hide Walk, Step, LeadsBack;
    if s.login.None? { return false; }
    var pushesByResult: map<string, Push> := map[];
    for i := 0 to |s.pushes|
      invariant forall c :: c in pushesByResult <==> FirstBelow(s, c, i).Some?
      invariant forall c | c in pushesByResult :: pushesByResult[c] == s.pushes[FirstBelow(s, c, i).value]
    {
      var key := s.fold(s.pushes[i].after);
      if key !in pushesByResult { pushesByResult := pushesByResult[key := s.pushes[i]]; }
    }
    forall c {
      FirstBelowIsFirst(s, c, 0);
    }
    var current, expected := s.fold(s.head), s.fold(s.expected);
    assert Walk(s, current, 0) == Some(current) by { WalkZero(s, current); }
    for k := 0 to |s.pushes|
      invariant Walk(s, s.fold(s.head), k) == Some(current)
      invariant forall m: nat | m < k :: Walk(s, s.fold(s.head), m) != Some(expected)
    {
      if current == expected {
        Arrives(s, k);
        return true;
      }
      StepIs(s, current);
      if current !in pushesByResult
         || pushesByResult[current].activity != "push" || pushesByResult[current].actor.None?
         || s.fold(pushesByResult[current].actor.value) == s.fold(s.login.value) {
        NeverArrives(s, k, current);
        return false;
      }
      OneStepOn(s, s.fold(s.head), k);
      current := s.fold(pushesByResult[current].before);
    }
    if current == expected { Arrives(s, |s.pushes|); }
    else { TooFar(s); }
    return current == expected;
  }

  function FirstBelow(s: Snapshot, c: string, n: nat): (r: Option<nat>)
    requires n <= |s.pushes|
    ensures r.Some? ==> r.value < n
  {
    if n == 0 then None
    else
      var earlier := FirstBelow(s, c, n - 1);
      if earlier.Some? then earlier else if s.fold(s.pushes[n - 1].after) == c then Some(n - 1) else None
  }

  lemma {:induction false} FirstBelowIsFirst(s: Snapshot, c: string, i: nat)
    requires i <= |s.pushes| && FirstBelow(s, c, i).None?
    ensures FirstBelow(s, c, |s.pushes|) == FirstFrom(s, c, i)
    decreases |s.pushes| - i
  {
    if i < |s.pushes| {
      if s.fold(s.pushes[i].after) == c { FirstBelowStays(s, c, i + 1, |s.pushes|); }
      else { FirstBelowIsFirst(s, c, i + 1); }
    }
  }

  lemma {:induction false} FirstBelowStays(s: Snapshot, c: string, i: nat, n: nat)
    requires i <= n <= |s.pushes| && FirstBelow(s, c, i).Some?
    ensures FirstBelow(s, c, n) == FirstBelow(s, c, i)
    decreases n
  {
    if i < n { FirstBelowStays(s, c, i, n - 1); }
  }

  lemma WalkZero(s: Snapshot, c: string)
    ensures Walk(s, c, 0) == Some(c)
  {}

  lemma StepIs(s: Snapshot, c: string)
    ensures Step(s, c) ==
            match FirstFrom(s, c, 0)
            case None => None
            case Some(i) => if ByOther(s, s.pushes[i]) then Some(s.fold(s.pushes[i].before)) else None
  {}

  lemma Arrives(s: Snapshot, k: nat)
    requires s.login.Some? && Walk(s, s.fold(s.head), k) == Some(s.fold(s.expected))
    ensures OthersLedToHead(s)
  {
    var path := WalkIsPath(s, s.fold(s.head), k, s.fold(s.expected));
  }

  lemma NeverArrives(s: Snapshot, k: nat, current: string)
    requires Walk(s, s.fold(s.head), k) == Some(current) && Step(s, current).None? && current != s.fold(s.expected)
    requires forall m: nat | m < k :: Walk(s, s.fold(s.head), m) != Some(s.fold(s.expected))
    ensures !OthersLedToHead(s)
  {
    hide Walk, Step, LeadsBack;
    if path :| LeadsBack(s, path, s.fold(s.head), s.fold(s.expected)) {
      PathIsWalk(s, path, s.fold(s.head), s.fold(s.expected));
      if k < |path| { StuckWalk(s, s.fold(s.head), k, |path|); }
    }
  }

  lemma TooFar(s: Snapshot)
    requires forall m: nat | m <= |s.pushes| :: Walk(s, s.fold(s.head), m) != Some(s.fold(s.expected))
    ensures !OthersLedToHead(s)
  {
    hide Walk, LeadsBack;
    if path :| LeadsBack(s, path, s.fold(s.head), s.fold(s.expected)) {
      PathIsWalk(s, path, s.fold(s.head), s.fold(s.expected));
      var least := ShortWalkArrives(s, s.fold(s.head), s.fold(s.expected), |path|);
    }
  }
}
