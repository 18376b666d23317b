/** The sliding-window limit on searches. */
module Throttle {

  const SEARCHES_PER_MINUTE := 25

  /** `part` is the end of `whole`. */
  ghost predicate EndOf<T>(part: seq<T>, whole: seq<T>) {
    |part| <= |whole| && forall k | |whole| - |part| <= k < |whole| :: whole[k] == part[k - (|whole| - |part|)]
  }

  function DropUpTo(recent: seq<real>, limit: real): (r: seq<real>)
    ensures EndOf(r, recent)
    ensures r != [] ==> limit < r[0]
    ensures forall k | 0 <= k < |recent| - |r| :: recent[k] <= limit
  {
    if recent != [] && recent[0] <= limit then DropUpTo(recent[1..], limit) else recent
  }

  /** When the next search is recorded, if the clock reads `now`. */
  function SearchTime(recent: seq<real>, now: real): real {
    if |recent| >= SEARCHES_PER_MINUTE && recent[0] + 60.0 - now > 0.0 then recent[0] + 60.0 else now
  }

  function AfterSearch(recent: seq<real>, now: real): seq<real> {
    var at := SearchTime(recent, now);
    DropUpTo(recent, at - 60.0) + [at]
  }

  ghost predicate Ascending(h: seq<real>) {
    forall i, j | 0 <= i < j < |h| :: h[i] <= h[j]
  }

  /** Any search comes at least a minute after the one 25 places before it. */
  ghost predicate Spaced(h: seq<real>) {
    forall i, j | 0 <= i && i + SEARCHES_PER_MINUTE <= j < |h| :: h[i] + 60.0 <= h[j]
  }

  /** The deque against every search recorded so far: it is the end of that history, and what it
      has dropped is at least a minute older than the newest search. */
  ghost predicate Holds(recent: seq<real>, history: seq<real>) {
    && |recent| <= SEARCHES_PER_MINUTE && EndOf(recent, history)
    && (history != [] ==> recent != [])
    && Ascending(history) && Spaced(history)
    && forall k | 0 <= k < |history| - |recent| :: history[k] + 60.0 <= history[|history| - 1]
  }

  /** Everything the deque has dropped when a search is recorded at `at` is a minute older. */
  lemma DroppedIsOld(recent: seq<real>, history: seq<real>, at: real, k: nat)
    requires Holds(recent, history) && (history != [] ==> history[|history| - 1] <= at)
    requires k < |history| - |DropUpTo(recent, at - 60.0)|
    ensures history[k] + 60.0 <= at
  {
    hide Ascending, Spaced;
    var start := |history| - |recent|;
    if k >= start {
      assert history[k] == recent[k - start];
    }
  }

  lemma SpacedGrows(history: seq<real>, kept: nat, at: real)
    requires Ascending(history) && Spaced(history) && kept < SEARCHES_PER_MINUTE
    requires history != [] ==> history[|history| - 1] <= at
    requires forall k | 0 <= k < |history| - kept :: history[k] + 60.0 <= at
    ensures Ascending(history + [at]) && Spaced(history + [at])
  {
    var all := history + [at];
    forall i, j | 0 <= i && i + SEARCHES_PER_MINUTE <= j < |all|
      ensures all[i] + 60.0 <= all[j]
    {
      if j < |history| { assert history[i] + 60.0 <= history[j]; }
      else { assert history[i] + 60.0 <= at; }
    }
    forall i, j | 0 <= i < j < |all|
      ensures all[i] <= all[j]
    {
      if j == |history| { assert history[i] <= history[|history| - 1]; }
    }
  }

  lemma OldestIsDropped(recent: seq<real>, limit: real)
    requires recent != [] && recent[0] <= limit
    ensures |DropUpTo(recent, limit)| < |recent|
  {}

  lemma EndIsShorter<T>(part: seq<T>, whole: seq<T>)
    requires EndOf(part, whole)
    ensures |part| <= |whole|
  {}

  lemma EndGrows<T>(history: seq<T>, recent: seq<T>, kept: seq<T>, x: T)
    requires EndOf(recent, history) && EndOf(kept, recent)
    ensures EndOf(kept + [x], history + [x])
  {
    forall k | |history| - |kept| <= k < |history|
      ensures history[k] == kept[k - (|history| - |kept|)]
    {
      assert recent[k - (|history| - |recent|)] == history[k];
    }
  }

  /** Recording one more search on a clock that does not run backwards keeps all of it. */
  lemma SearchKeepsHolds(recent: seq<real>, history: seq<real>, now: real)
    requires Holds(recent, history) && (history != [] ==> history[|history| - 1] <= now)
    ensures Holds(AfterSearch(recent, now), history + [SearchTime(recent, now)])
    ensures now <= SearchTime(recent, now)
  {
    hide Ascending, Spaced, EndOf, DropUpTo;
    var at := SearchTime(recent, now);
    var kept := DropUpTo(recent, at - 60.0);
    EndIsShorter(kept, recent);
    EndIsShorter(recent, history);
    assert |kept| < SEARCHES_PER_MINUTE by {
      if |recent| >= SEARCHES_PER_MINUTE { OldestIsDropped(recent, at - 60.0); }
    }
    forall k | 0 <= k < |history| - |kept|
      ensures history[k] + 60.0 <= at
    {
      DroppedIsOld(recent, history, at, k);
    }
    SpacedGrows(history, |kept|, at);
    EndGrows(history, recent, kept, at);
  }

  /** The recorded time is the earliest one the window admits: at any earlier time that the clock
      could still read, 25 searches already fall within the last minute. */
  lemma SearchTimeIsEarliest(recent: seq<real>, history: seq<real>, now: real, t: real)
    requires Holds(recent, history) && now <= t < SearchTime(recent, now)
    ensures |history| >= SEARCHES_PER_MINUTE
    ensures forall k | |history| - SEARCHES_PER_MINUTE <= k < |history| :: t - 60.0 < history[k]
  {
    forall k | |history| - SEARCHES_PER_MINUTE <= k < |history|
      ensures t - 60.0 < history[k]
    {
      assert history[|history| - |recent|] == recent[0];
    }
  }

  function Within(h: seq<real>, t: real): set<int> {
    set i | 0 <= i < |h| && t <= h[i] < t + 60.0
  }

  lemma SetFitsInterval(s: set<int>, lo: int, n: nat)
    requires forall i | i in s :: lo <= i < lo + n
    ensures |s| <= n
    decreases n
  {
    if n > 0 {
      var last := lo + n - 1;
      SetFitsInterval(s - {last}, lo, n - 1);
      if last in s { assert s == (s - {last}) + {last}; } else { assert s == s - {last}; }
    } else {
      assert forall i :: i !in s;
    }
  }

  lemma LeastIndex(s: set<int>, x: int) returns (lo: int)
    requires x in s
    ensures lo in s && forall i | i in s :: lo <= i
    decreases |s|
  {
    lo := x;
    if y :| y in s - {x} {
      var least := LeastIndex(s - {x}, y);
      if least < x { lo := least; }
    }
    assert forall i | i in s :: i == x || i in s - {x};
  }

  /** At most 25 searches fall within any 60 seconds. */
  lemma WindowBound(h: seq<real>, t: real)
    requires Spaced(h)
    ensures |Within(h, t)| <= SEARCHES_PER_MINUTE
  {
    var s := Within(h, t);
    if x :| x in s {
      var lo := LeastIndex(s, x);
      forall i | i in s
        ensures i < lo + SEARCHES_PER_MINUTE
      {}
      SetFitsInterval(s, lo, SEARCHES_PER_MINUTE);
    } else {
      assert s == {};
    }
  }

  // ---------------------------------------------------------------- every run of searches

  /** The deque and the history after searches whose clock readings come `gaps` after the search
      recorded before each (the first gap counts from time 0). */
  function AfterSearches(gaps: seq<real>): (seq<real>, seq<real>) {
    if gaps == [] then ([], [])
    else
      var (recent, history) := AfterSearches(gaps[..|gaps| - 1]);
      var now := (if history == [] then 0.0 else history[|history| - 1]) + gaps[|gaps| - 1];
      (AfterSearch(recent, now), history + [SearchTime(recent, now)])
  }

  lemma {:induction false} SearchesHold(gaps: seq<real>)
    requires forall k | 0 <= k < |gaps| :: gaps[k] >= 0.0
    ensures var (recent, history) := AfterSearches(gaps); Holds(recent, history) && |history| == |gaps|
    decreases |gaps|
  {
    hide Holds, AfterSearch, SearchTime;
    if gaps == [] {
      NoSearchHolds();
    } else {
      var n := |gaps| - 1;
      SearchesHold(gaps[..n]);
      var (recent, history) := AfterSearches(gaps[..n]);
      var now := (if history == [] then 0.0 else history[|history| - 1]) + gaps[n];
      SearchKeepsHolds(recent, history, now);
    }
  }

  lemma NoSearchHolds()
    ensures Holds([], [])
  {}

  /** Over any run of searches on a clock that does not run backwards: every search comes at least a
      minute after the 25th before it, the deque stays sorted and at most 25 long, and no 60 seconds
      hold more than 25 searches. */
  lemma EveryRunIsSpaced(gaps: seq<real>, t: real)
    requires forall k | 0 <= k < |gaps| :: gaps[k] >= 0.0
    ensures var (recent, history) := AfterSearches(gaps);
            && |history| == |gaps| && Ascending(history) && Spaced(history)
            && |recent| <= SEARCHES_PER_MINUTE && Ascending(recent)
            && |Within(history, t)| <= SEARCHES_PER_MINUTE
  {
    hide AfterSearches, Within, Spaced, Ascending, EndOf;
    SearchesHold(gaps);
    var (recent, history) := AfterSearches(gaps);
    WindowBound(history, t);
    EndAscends(recent, history);
  }

  lemma EndAscends(recent: seq<real>, history: seq<real>)
    requires EndOf(recent, history) && Ascending(history)
    ensures Ascending(recent)
  {
    var start := |history| - |recent|;
    forall i, j | 0 <= i < j < |recent|
      ensures recent[i] <= recent[j]
    {
      assert history[start + i] == recent[i] && history[start + j] == recent[j];
    }
  }
}
