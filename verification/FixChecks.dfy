/** The verdicts of a fix's check: red/green, regression and the result. */
module FixChecks {
  import opened Results
  import opened Seqs
  import opened SuiteRuns

  const GREEN_RUNS := 3
  const REGRESSION_RERUNS := 2

  datatype RunKind = Red | Green | Related | FullSuite | Rerun

  /** A run that was made, with its kind. */
  datatype Evidence = Evidence(kind: RunKind, run: SuiteRun)

  /** What the sandbox and the clock will say: the `n`th request for a run gives the run, or nothing
      when no time is left; `tooSlow` when the full suite would not fit in the time left then. */
  datatype World = World(runs: nat -> Option<SuiteRun>, tooSlow: nat -> bool)

  // ---------------------------------------------------------------- regression runs

  /** One regression command: nothing when there was no time for it, else whether it was usable and
      the failures left; with the evidence made and the next request's number. */
  datatype RegressionRun = RegressionRun(ran: bool, usable: bool, newFailures: set<string>, runs: seq<Evidence>, next: nat)

  /** Re-running the failures from the `done`th re-run on. */
  function Reruns(w: World, n: nat, found: set<string>, done: nat, runs: seq<Evidence>): RegressionRun
    requires done <= REGRESSION_RERUNS
    decreases REGRESSION_RERUNS - done
  {
    if done == REGRESSION_RERUNS || found == {} || w.runs(n).None? then
      RegressionRun(true, true, found, runs, if done == REGRESSION_RERUNS || found == {} then n else n + 1)
    else
      var rerun := w.runs(n).value;
      Reruns(w, n + 1, StillFailing(found, rerun), done + 1, runs + [Evidence(Rerun, rerun)])
  }

  /** `_regression_run`. */
  function RunRegression(b: Baseline, w: World, n: nat, kind: RunKind, runs: seq<Evidence>): RegressionRun {
    match w.runs(n)
    case None => RegressionRun(false, false, {}, runs, n + 1)
    case Some(run) =>
      var made := runs + [Evidence(kind, run)];
      if !Usable(run) then RegressionRun(true, false, {}, made, n + 1)
      else Reruns(w, n + 1, NewFailures(b, run, kind == FullSuite), 0, made)
  }

  method RunRegressionLoop(b: Baseline, w: World, n: nat, kind: RunKind, runs: seq<Evidence>) returns (r: RegressionRun)
    ensures r == RunRegression(b, w, n, kind, runs)
  {
    hide NewFailures, StillFailing;
    var run := w.runs(n);
    if run.None? { return RegressionRun(false, false, {}, runs, n + 1); }
    var made := runs + [Evidence(kind, run.value)];
    if !Usable(run.value) { return RegressionRun(true, false, {}, made, n + 1); }
    var found := NewFailures(b, run.value, kind == FullSuite);
    var next: nat := n + 1;
    for done := 0 to REGRESSION_RERUNS
      invariant RunRegression(b, w, n, kind, runs) == Reruns(w, next, found, done, made)
    {
      if found == {} { break; }
      var rerun := w.runs(next);
      next := next + 1;
      if rerun.None? { return RegressionRun(true, true, found, made, next); }
      made := made + [Evidence(Rerun, rerun.value)];
      found := StillFailing(found, rerun.value);
    }
    return RegressionRun(true, true, found, made, next);
  }

  /** The test failed in the run at `first` of the evidence and in every re-run made after it. */
  ghost predicate FailsThroughout(b: Baseline, runs: seq<Evidence>, first: nat, t: string)
    requires first < |runs|
  {
    && FailsFirst(b, runs[first].run, runs[first].kind == FullSuite, t)
    && forall k | first < k < |runs| :: FailsAgain(runs[k].run, t)
  }

  lemma {:induction false} RerunsAreExact(b: Baseline, w: World, n: nat, found: set<string>, done: nat, runs: seq<Evidence>, first: nat)
    requires done <= REGRESSION_RERUNS && first + done + 1 == |runs|
    requires forall t :: t in found <==> FailsThroughout(b, runs, first, t)
    ensures var r := Reruns(w, n, found, done, runs);
            && runs <= r.runs && |r.runs| <= first + 1 + REGRESSION_RERUNS
            && (forall k | |runs| <= k < |r.runs| :: r.runs[k].kind == Rerun)
            && (forall t :: t in r.newFailures <==> FailsThroughout(b, r.runs, first, t))
            && (r.newFailures != {} ==> |r.runs| == first + 1 + REGRESSION_RERUNS || (r.next > 0 && w.runs(r.next - 1).None?))
            && r.ran && r.usable && n <= r.next && (|r.runs| > |runs| ==> r.next > 0)
    decreases REGRESSION_RERUNS - done
  {
    hide FailsFirst, FailsAgain, StillFailing;
    if done < REGRESSION_RERUNS && found != {} && w.runs(n).Some? {
      var rerun := w.runs(n).value;
      var more := runs + [Evidence(Rerun, rerun)];
      forall t
        ensures t in StillFailing(found, rerun) <==> FailsThroughout(b, more, first, t)
      {
        StillFails(found, rerun, t);
        OneMoreRerun(b, runs, first, rerun, t);
      }
      RerunsAreExact(b, w, n + 1, StillFailing(found, rerun), done + 1, more, first);
    }
  }

  lemma OneMoreRerun(b: Baseline, runs: seq<Evidence>, first: nat, rerun: SuiteRun, t: string)
    requires first < |runs|
    ensures FailsThroughout(b, runs + [Evidence(Rerun, rerun)], first, t) <==> FailsThroughout(b, runs, first, t) && FailsAgain(rerun, t)
  {
    hide FailsFirst, FailsAgain;
    var more := runs + [Evidence(Rerun, rerun)];
    assert more[|runs|].run == rerun;
    assert forall k | 0 <= k < |runs| :: more[k] == runs[k];
  }

  /** A test is reported exactly when it fails in the run that found it and in every re-run made;
      fewer than two re-runs are made only when nothing is left to re-run or no time is. */
  lemma ReportedExactly(b: Baseline, w: World, n: nat, kind: RunKind, runs: seq<Evidence>)
    requires RunRegression(b, w, n, kind, runs).ran && RunRegression(b, w, n, kind, runs).usable
    ensures var r := RunRegression(b, w, n, kind, runs);
            && runs < r.runs && r.runs[|runs|].kind == kind && Usable(r.runs[|runs|].run)
            && (forall t :: t in r.newFailures <==> FailsThroughout(b, r.runs, |runs|, t))
            && |r.runs| <= |runs| + 1 + REGRESSION_RERUNS
            && (r.newFailures != {} ==> |r.runs| == |runs| + 1 + REGRESSION_RERUNS || (r.next > 0 && w.runs(r.next - 1).None?))
  {
    hide FailsFirst, FailsAgain;
    var run := w.runs(n).value;
    var made := runs + [Evidence(kind, run)];
    assert made[|runs|] == Evidence(kind, run);
    FirstFailures(b, made, |runs|);
    RerunsAreExact(b, w, n + 1, NewFailures(b, run, kind == FullSuite), 0, made, |runs|);
  }

  lemma FirstFailures(b: Baseline, runs: seq<Evidence>, first: nat)
    requires first + 1 == |runs|
    ensures forall t :: t in NewFailures(b, runs[first].run, runs[first].kind == FullSuite) <==> FailsThroughout(b, runs, first, t)
  {}

  // ---------------------------------------------------------------- regression

  datatype RegressionStatus = Passing | Failing | NotRun

  datatype Regression = Regression(status: RegressionStatus, fullSuite: bool, newFailures: set<string>, runs: seq<Evidence>)

  /** The full suite, or nothing when it is skipped. */
  function FullRun(b: Baseline, w: World, n: nat, runs: seq<Evidence>): Option<RegressionRun> {
    if b.timedOut || w.tooSlow(n) then None
    else
      var r := RunRegression(b, w, n, FullSuite, runs);
      if r.ran then Some(r) else None
  }

  /** `_regression`; `related` when the patch has related tests to run. */
  function Regress(b: Baseline, w: World, n: nat, related: bool): Regression {
    var first := if related then RunRegression(b, w, n, Related, []) else RegressionRun(false, false, {}, [], n);
    if first.ran && first.newFailures != {} then Regression(Failing, false, first.newFailures, first.runs)
    else
      match FullRun(b, w, first.next, first.runs)
      case Some(full) =>
        if !full.usable then Regression(Failing, true, {}, full.runs)
        else if full.newFailures != {} then Regression(Failing, true, full.newFailures, full.runs)
        else Regression(Passing, true, {}, full.runs)
      case None =>
        if first.ran && !first.usable then Regression(Failing, false, {}, first.runs)
        else if !first.ran then Regression(NotRun, false, {}, first.runs)
        else Regression(Passing, false, {}, first.runs)
  }

  method RegressLoop(b: Baseline, w: World, n: nat, related: bool) returns (r: Regression)
    ensures r == Regress(b, w, n, related)
  {
    hide RunRegression;
    var runs: seq<Evidence> := [];
    var next, relatedRan, relatedUnusable := n, false, false;
    if related {
      var outcome := RunRegressionLoop(b, w, n, Related, runs);
      runs, next := outcome.runs, outcome.next;
      if outcome.ran && outcome.newFailures != {} { return Regression(Failing, false, outcome.newFailures, runs); }
      if outcome.ran {
        relatedRan := outcome.usable;
        relatedUnusable := !outcome.usable;
      }
    }
    if !b.timedOut && !w.tooSlow(next) {
      var outcome := RunRegressionLoop(b, w, next, FullSuite, runs);
      if outcome.ran {
        if !outcome.usable { return Regression(Failing, true, {}, outcome.runs); }
        if outcome.newFailures != {} { return Regression(Failing, true, outcome.newFailures, outcome.runs); }
        return Regression(Passing, true, {}, outcome.runs);
      }
    }
    if relatedUnusable { return Regression(Failing, false, {}, runs); }
    if !relatedRan { return Regression(NotRun, false, {}, runs); }
    return Regression(Passing, false, {}, runs);
  }

  /** The evidence ends with a usable run of the kind and its re-runs, and no test failed in all
      of them. */
  ghost predicate ShowsNoNewFailure(b: Baseline, runs: seq<Evidence>, first: nat, kind: RunKind) {
    && first < |runs| && runs[first].kind == kind && Usable(runs[first].run)
    && (forall k | first < k < |runs| :: runs[k].kind == Rerun)
    && forall t :: !FailsThroughout(b, runs, first, t)
  }

  lemma NoneLeft(b: Baseline, w: World, n: nat, kind: RunKind, runs: seq<Evidence>)
    requires var r := RunRegression(b, w, n, kind, runs); r.ran && r.usable && r.newFailures == {}
    ensures var r := RunRegression(b, w, n, kind, runs); ShowsNoNewFailure(b, r.runs, |runs|, kind)
  {
    ReportedExactly(b, w, n, kind, runs);
  }

  /** The full suite is skipped at the `n`th request: it did not finish on the base, would not fit
      into the time left, or no time is left. */
  predicate FullSuiteSkipped(b: Baseline, w: World, n: nat) {
    b.timedOut || w.tooSlow(n) || w.runs(n).None?
  }

  /** The number of the request that comes after the related tests. */
  function AfterRelated(b: Baseline, w: World, n: nat, related: bool): nat {
    if related then RunRegression(b, w, n, Related, []).next else n
  }

  /** The kind of run that decided. */
  function DecidedBy(r: Regression): RunKind {
    if r.fullSuite then FullSuite else Related
  }

  /** What a passing regression check stands on: a usable run of the full suite that left no new
      failure, or one of the related tests when the full suite was skipped. */
  ghost predicate ShownPassing(b: Baseline, w: World, n: nat, related: bool, r: Regression) {
    && (!r.fullSuite ==> related && FullSuiteSkipped(b, w, AfterRelated(b, w, n, related)))
    && exists first :: ShowsNoNewFailure(b, r.runs, first, DecidedBy(r))
  }

  lemma RegressionPassesMeans(b: Baseline, w: World, n: nat, related: bool)
    requires Regress(b, w, n, related).status.Passing?
    ensures ShownPassing(b, w, n, related, Regress(b, w, n, related))
  {
    hide RunRegression, ShowsNoNewFailure;
    var first := if related then RunRegression(b, w, n, Related, []) else RegressionRun(false, false, {}, [], n);
    var full := FullRun(b, w, first.next, first.runs);
    var r := Regress(b, w, n, related);
    RunsWhenInTime(b, w, first.next, FullSuite, first.runs);
    if full.Some? {
      NoneLeft(b, w, first.next, FullSuite, first.runs);
      assert DecidedBy(r) == FullSuite;
    } else {
      NoneLeft(b, w, n, Related, []);
      assert DecidedBy(r) == Related;
    }
  }

  lemma RunsWhenInTime(b: Baseline, w: World, n: nat, kind: RunKind, runs: seq<Evidence>)
    ensures var r := RunRegression(b, w, n, kind, runs);
            (r.ran <==> w.runs(n).Some?) && (!r.ran ==> r.next == n + 1 && r.newFailures == {})
  {
    if w.runs(n).Some? && Usable(w.runs(n).value) {
      var run := w.runs(n).value;
      RerunsRan(w, n + 1, NewFailures(b, run, kind == FullSuite), 0, runs + [Evidence(kind, run)]);
    }
  }

  lemma {:induction false} RerunsRan(w: World, n: nat, found: set<string>, done: nat, runs: seq<Evidence>)
    requires done <= REGRESSION_RERUNS
    ensures Reruns(w, n, found, done, runs).ran
    decreases REGRESSION_RERUNS - done
  {
    if done < REGRESSION_RERUNS && found != {} && w.runs(n).Some? {
      RerunsRan(w, n + 1, StillFailing(found, w.runs(n).value), done + 1, runs + [Evidence(Rerun, w.runs(n).value)]);
    }
  }

  /** No related test is run, nor the full suite, from the `n`th request on. */
  predicate NoRegressionRun(b: Baseline, w: World, n: nat, related: bool) {
    (!related || w.runs(n).None?) && FullSuiteSkipped(b, w, if related then n + 1 else n)
  }

  /** A regression check is not run exactly when no related test was run and the full suite is skipped. */
  lemma NotRunExactly(b: Baseline, w: World, n: nat, related: bool)
    ensures Regress(b, w, n, related).status.NotRun? <==> NoRegressionRun(b, w, n, related)
  {
    hide RunRegression;
    RunsWhenInTime(b, w, n, Related, []);
    var first := if related then RunRegression(b, w, n, Related, []) else RegressionRun(false, false, {}, [], n);
    RunsWhenInTime(b, w, first.next, FullSuite, first.runs);
  }

  /** The failures a regression check reports are tests that always passed before, and that failed
      in the run that found them and in every re-run of it. */
  lemma ReportedFailuresAreReal(b: Baseline, w: World, n: nat, related: bool, t: string)
    requires t in Regress(b, w, n, related).newFailures
    ensures var r := Regress(b, w, n, related);
            && r.status.Failing? && t in b.passStable
            && exists first :: 0 <= first < |r.runs| && Usable(r.runs[first].run)
                 && r.runs[first].kind == (if r.fullSuite then FullSuite else Related)
                 && FailsThroughout(b, r.runs, first, t)
  {
    var first := if related then RunRegression(b, w, n, Related, []) else RegressionRun(false, false, {}, [], n);
    if first.ran && first.newFailures != {} {
      ReportedExactly(b, w, n, Related, []);
    } else {
      ReportedExactly(b, w, first.next, FullSuite, first.runs);
    }
  }

  // ---------------------------------------------------------------- when regression passes

  /** The test fails in the run that the `n`th request gives and in every re-run that the next two
      requests give; no re-run is made after the first one for which no time is left. */
  predicate KeepsFailing(b: Baseline, w: World, n: nat, kind: RunKind, t: string)
    requires w.runs(n).Some?
  {
    && FailsFirst(b, w.runs(n).value, kind == FullSuite, t)
    && (w.runs(n + 1).Some? ==> FailsAgain(w.runs(n + 1).value, t))
    && (w.runs(n + 1).Some? && w.runs(n + 2).Some? ==> FailsAgain(w.runs(n + 2).value, t))
  }

  lemma NewFailuresExactly(b: Baseline, w: World, n: nat, kind: RunKind, runs: seq<Evidence>, t: string)
    ensures var r := RunRegression(b, w, n, kind, runs);
            && (r.ran && r.usable <==> w.runs(n).Some? && Usable(w.runs(n).value))
            && (t in r.newFailures <==> w.runs(n).Some? && Usable(w.runs(n).value) && KeepsFailing(b, w, n, kind, t))
  {
    hide FailsFirst, FailsAgain, NewFailures, StillFailing;
    if w.runs(n).Some? && Usable(w.runs(n).value) {
      var run := w.runs(n).value;
      var found := NewFailures(b, run, kind == FullSuite);
      assert t in found <==> FailsFirst(b, run, kind == FullSuite, t) by { FirstFailing(b, run, kind == FullSuite, t); }
      if w.runs(n + 1).Some? {
        StillFails(found, w.runs(n + 1).value, t);
        if w.runs(n + 2).Some? { StillFails(StillFailing(found, w.runs(n + 1).value), w.runs(n + 2).value, t); }
      }
      RerunsFailures(w, n + 1, found, runs + [Evidence(kind, run)]);
    }
  }

  lemma FirstFailing(b: Baseline, run: SuiteRun, full: bool, t: string)
    ensures t in NewFailures(b, run, full) <==> FailsFirst(b, run, full, t)
  {}

  lemma StillFails(candidates: set<string>, rerun: SuiteRun, t: string)
    ensures t in StillFailing(candidates, rerun) <==> t in candidates && FailsAgain(rerun, t)
  {}

  lemma StillNothing(rerun: SuiteRun)
    ensures StillFailing({}, rerun) == {}
  {}

  lemma RerunsFailures(w: World, n: nat, found: set<string>, runs: seq<Evidence>)
    ensures var r := Reruns(w, n, found, 0, runs);
            && r.ran && r.usable
            && r.newFailures ==
               if w.runs(n).None? then found
               else if w.runs(n + 1).None? then StillFailing(found, w.runs(n).value)
               else StillFailing(StillFailing(found, w.runs(n).value), w.runs(n + 1).value)
  {
    hide StillFailing;
    if w.runs(n).Some? {
      StillNothing(w.runs(n).value);
      if w.runs(n + 1).Some? { StillNothing(w.runs(n + 1).value); }
      if found != {} {
        var more := runs + [Evidence(Rerun, w.runs(n).value)];
        assert Reruns(w, n, found, 0, runs) == Reruns(w, n + 1, StillFailing(found, w.runs(n).value), 1, more);
      }
    }
  }

  /** The run that the `n`th request gives is usable, and no test keeps failing. */
  ghost predicate RunPasses(b: Baseline, w: World, n: nat, kind: RunKind) {
    w.runs(n).Some? && Usable(w.runs(n).value) && forall t :: !KeepsFailing(b, w, n, kind, t)
  }

  /** The related tests were run and some test keeps failing. */
  ghost predicate RunFails(b: Baseline, w: World, n: nat, kind: RunKind) {
    w.runs(n).Some? && Usable(w.runs(n).value) && exists t :: KeepsFailing(b, w, n, kind, t)
  }

  /** What regression passes on: no related test keeps failing, and then the full suite passes, or
      it is skipped and the related tests pass. */
  ghost predicate RegressionPasses(b: Baseline, w: World, n: nat, related: bool) {
    var next := AfterRelated(b, w, n, related);
    && !(related && RunFails(b, w, n, Related))
    && if FullSuiteSkipped(b, w, next) then related && RunPasses(b, w, n, Related) else RunPasses(b, w, next, FullSuite)
  }

  lemma RunVerdict(b: Baseline, w: World, n: nat, kind: RunKind, runs: seq<Evidence>)
    ensures var r := RunRegression(b, w, n, kind, runs);
            && (RunPasses(b, w, n, kind) <==> r.ran && r.usable && r.newFailures == {})
            && (RunFails(b, w, n, kind) <==> r.newFailures != {})
            && (r.ran <==> w.runs(n).Some?)
            && (r.newFailures != {} ==> r.ran && r.usable)
  {
    hide KeepsFailing, RunRegression, Usable;
    RunsWhenInTime(b, w, n, kind, runs);
    var r := RunRegression(b, w, n, kind, runs);
    forall t
      ensures t in r.newFailures <==> w.runs(n).Some? && Usable(w.runs(n).value) && KeepsFailing(b, w, n, kind, t)
    {
      NewFailuresExactly(b, w, n, kind, runs, t);
    }
    NewFailuresExactly(b, w, n, kind, runs, "");
    if r.newFailures != {} {
      var t :| t in r.newFailures;
      assert KeepsFailing(b, w, n, kind, t);
    }
  }

  lemma RegressionPassesExactly(b: Baseline, w: World, n: nat, related: bool)
    ensures Regress(b, w, n, related).status.Passing? <==> RegressionPasses(b, w, n, related)
  {
    hide RunRegression, RunPasses, RunFails;
    RunVerdict(b, w, n, Related, []);
    var first := if related then RunRegression(b, w, n, Related, []) else RegressionRun(false, false, {}, [], n);
    RunVerdict(b, w, first.next, FullSuite, first.runs);
  }

  // ---------------------------------------------------------------- red and green

  datatype RedGreenStatus = RgPassed | RgFailed | NotApplicable

  /** `missed` is the StateError for a green step that found no tests. */
  datatype RedGreen = RedGreen(status: RedGreenStatus, found: Option<Reproduction>, runs: seq<Evidence>, missed: bool, next: nat)

  /** What the patch is: whether it changes tests that stay, whether it changes sources, and which
      tests it edits. */
  datatype Change = Change(hasTests: bool, hasSources: bool, changed: string -> bool)

  /** The green runs, from the ones made so far on. */
  function GreenStep(b: Baseline, w: World, n: nat, c: Change, found: Option<Reproduction>,
                     green: seq<SuiteRun>, runs: seq<Evidence>): RedGreen
    requires |green| <= GREEN_RUNS
    decreases GREEN_RUNS - |green|
  {
    if |green| == GREEN_RUNS then GreenVerdict(c, found, green, runs, n)
    else
      match w.runs(n)
      case None => RedGreen(RgFailed, found, runs, false, n + 1)
      case Some(run) =>
        var seen := if found.Some? then found else Some(Reproduce(b, run, c.changed));
        var more := green + [run];
        var made := runs + [Evidence(Green, run)];
        if GreenFailure(seen.value, more, 0).Some? then GreenVerdict(c, seen, more, made, n + 1)
        else GreenStep(b, w, n + 1, c, seen, more, made)
  }

  function GreenVerdict(c: Change, found: Option<Reproduction>, green: seq<SuiteRun>, runs: seq<Evidence>, n: nat): RedGreen {
    if found.None? then RedGreen(RgFailed, None, runs, true, n)
    else
      var failed := GreenFailure(found.value, green, 0).Some? || (c.hasSources && found.value.reproduced == {});
      RedGreen(if failed then RgFailed else RgPassed, found, runs, false, n)
  }

  /** `_red_green`. */
  function CheckRedGreen(b: Baseline, w: World, n: nat, c: Change): RedGreen {
    if !c.hasTests then RedGreen(NotApplicable, None, [], false, n)
    else if !c.hasSources then GreenStep(b, w, n, c, None, [], [])
    else
      match w.runs(n)
      case None => RedGreen(RgFailed, None, [], false, n + 1)
      case Some(red) => GreenStep(b, w, n + 1, c, Some(Reproduce(b, red, c.changed)), [], [Evidence(Red, red)])
  }

  method CheckRedGreenLoop(b: Baseline, w: World, n: nat, c: Change) returns (r: RedGreen)
    ensures r == CheckRedGreen(b, w, n, c)
  {
    hide Reproduce, GreenFailure, GreenVerdict;
    if !c.hasTests { return RedGreen(NotApplicable, None, [], false, n); }
    var runs: seq<Evidence> := [];
    var found: Option<Reproduction> := None;
    var next: nat := n;
    if c.hasSources {
      var red := w.runs(next);
      next := next + 1;
      if red.None? { return RedGreen(RgFailed, None, runs, false, next); }
      assert runs + [Evidence(Red, red.value)] == [Evidence(Red, red.value)];
      runs := runs + [Evidence(Red, red.value)];
      found := Some(Reproduce(b, red.value, c.changed));
    }
    var green: seq<SuiteRun> := [];
    var failure: Option<nat> := None;
    while |green| < GREEN_RUNS && failure.None?
      invariant |green| <= GREEN_RUNS
      invariant failure.None? ==> CheckRedGreen(b, w, n, c) == GreenStep(b, w, next, c, found, green, runs)
      invariant failure.Some? ==> CheckRedGreen(b, w, n, c) == GreenVerdict(c, found, green, runs, next)
      decreases GREEN_RUNS - |green|
    {
      var run := w.runs(next);
      next := next + 1;
      if run.None? { return RedGreen(RgFailed, found, runs, false, next); }
      green := green + [run.value];
      runs := runs + [Evidence(Green, run.value)];
      found := if found.Some? then found else Some(Reproduce(b, run.value, c.changed));
      failure := GreenFailure(found.value, green, 0);
    }
    r := GreenVerdict(c, found, green, runs, next);
  }

  /** The last three pieces of evidence are green runs, after the red one when there is one. */
  ghost predicate ThreeGreenRuns(c: Change, r: RedGreen) {
    && r.found.Some?
    && |r.runs| == GREEN_RUNS + (if c.hasSources then 1 else 0)
    && forall k | |r.runs| - GREEN_RUNS <= k < |r.runs| :: r.runs[k].kind == Green && IsGreen(r.found.value, r.runs[k].run)
  }

  ghost predicate SoFar(c: Change, found: Option<Reproduction>, green: seq<SuiteRun>, runs: seq<Evidence>, red: seq<Evidence>) {
    && |red| == (if c.hasSources then 1 else 0)
    && |runs| == |red| + |green| && red <= runs
    && (forall k | 0 <= k < |green| :: runs[|red| + k] == Evidence(Green, green[k]))
    && (green != [] ==> found.Some? && GreenFailure(found.value, green, 0).None?)
  }

  lemma {:induction false} GreenStepIsSound(b: Baseline, w: World, n: nat, c: Change, found: Option<Reproduction>,
                                            green: seq<SuiteRun>, runs: seq<Evidence>, red: seq<Evidence>)
    requires |green| <= GREEN_RUNS && SoFar(c, found, green, runs, red)
    ensures var r := GreenStep(b, w, n, c, found, green, runs);
            && !r.missed && red <= r.runs && (found.Some? ==> r.found == found)
            && (r.status.RgPassed? ==> ThreeGreenRuns(c, r) && (c.hasSources ==> r.found.value.reproduced != {}))
            && (found.None? && green == [] && r.status.RgPassed? ==> r.found == Some(Reproduce(b, r.runs[|red|].run, c.changed)))
    decreases GREEN_RUNS - |green|
  {
    hide Reproduce, IsGreen, GreenFailure;
    if |green| == GREEN_RUNS {
      NoFailureMeansAllGreen(found.value, green, 0);
      forall k | |runs| - GREEN_RUNS <= k < |runs|
        ensures runs[k].kind == Green && IsGreen(found.value, runs[k].run)
      {
        assert runs[|red| + (k - |red|)] == Evidence(Green, green[k - |red|]);
      }
    } else if w.runs(n).Some? {
      var run := w.runs(n).value;
      var seen := if found.Some? then found else Some(Reproduce(b, run, c.changed));
      var made := runs + [Evidence(Green, run)];
      if GreenFailure(seen.value, green + [run], 0).None? {
        GreenStepIsSound(b, w, n + 1, c, seen, green + [run], made, red);
        StepKeepsRuns(b, w, n + 1, c, seen, green + [run], made);
      }
    }
  }

  lemma {:induction false} StepKeepsRuns(b: Baseline, w: World, n: nat, c: Change, found: Option<Reproduction>,
                                         green: seq<SuiteRun>, runs: seq<Evidence>)
    requires |green| <= GREEN_RUNS
    ensures runs <= GreenStep(b, w, n, c, found, green, runs).runs
    decreases GREEN_RUNS - |green|
  {
    hide Reproduce, GreenFailure;
    if |green| < GREEN_RUNS && w.runs(n).Some? {
      var run := w.runs(n).value;
      var seen := if found.Some? then found else Some(Reproduce(b, run, c.changed));
      if GreenFailure(seen.value, green + [run], 0).None? {
        StepKeepsRuns(b, w, n + 1, c, seen, green + [run], runs + [Evidence(Green, run)]);
      }
    }
  }

  /** Each of the three green runs passes everything that the first run showed has to pass. */
  ghost predicate GreenRunsPass(b: Baseline, c: Change, r: RedGreen) {
    && |r.runs| == GREEN_RUNS + (if c.hasSources then 1 else 0)
    && forall k | |r.runs| - GREEN_RUNS <= k < |r.runs| ::
         r.runs[k].kind == Green && PassesAll(b, r.runs[0].run, c.changed, r.runs[k].run)
  }

  /** Red/green passes only with exactly three green runs in which every test passed that the patch
      adds or that it breaks by editing it, and every file collected that did not before; with source
      changes also only when such a test failed by an assertion without them. */
  lemma RedGreenPassesMeans(b: Baseline, w: World, n: nat, c: Change)
    requires CheckRedGreen(b, w, n, c).status.RgPassed?
    ensures var r := CheckRedGreen(b, w, n, c);
            && !r.missed && GreenRunsPass(b, c, r)
            && (c.hasSources ==>
                  && r.runs[0].kind == Red
                  && exists t :: Reproduces(b, r.runs[0].run, c.changed, t) && BrokenThenFixed(r.runs, t))
  {
    hide Reproduce, GreenFailure, IsGreen, PassesAll;
    var r := CheckRedGreen(b, w, n, c);
    if !c.hasSources {
      GreenStepIsSound(b, w, n, c, None, [], [], []);
      GreenRunsPassAll(b, c, r);
    } else {
      var red := w.runs(n).value;
      var found := Reproduce(b, red, c.changed);
      var first := [Evidence(Red, red)];
      GreenStepIsSound(b, w, n + 1, c, Some(found), [], first, first);
      GreenRunsPassAll(b, c, r);
      var t :| t in found.reproduced;
      ReproductionExactly(b, red, c.changed, t);
      FixedTest(b, c, r, t);
    }
  }

  lemma GreenRunsPassAll(b: Baseline, c: Change, r: RedGreen)
    requires ThreeGreenRuns(c, r) && r.found == Some(Reproduce(b, r.runs[0].run, c.changed))
    ensures GreenRunsPass(b, c, r)
  {
    hide Reproduce, IsGreen, PassesAll;
    forall k | |r.runs| - GREEN_RUNS <= k < |r.runs|
      ensures PassesAll(b, r.runs[0].run, c.changed, r.runs[k].run)
    {
      GreenPassesAll(b, r.runs[0].run, c.changed, r.runs[k].run);
    }
  }

  lemma FixedTest(b: Baseline, c: Change, r: RedGreen, t: string)
    requires c.hasSources && GreenRunsPass(b, c, r) && Reproduces(b, r.runs[0].run, c.changed, t)
    ensures BrokenThenFixed(r.runs, t)
  {
    hide MustCollect, Collects;
    forall k | 0 < k < |r.runs|
      ensures t in r.runs[k].run.results && r.runs[k].run.results[t].status == Passed
    {
      assert PassesAll(b, r.runs[0].run, c.changed, r.runs[k].run);
    }
  }

  /** The test failed by an assertion in the red run and passed in every later one. */
  ghost predicate BrokenThenFixed(runs: seq<Evidence>, t: string) {
    && runs != [] && Usable(runs[0].run) && t in runs[0].run.results
    && runs[0].run.results[t].status == Failed && !runs[0].run.results[t].notReproduced
    && forall k | 0 < k < |runs| :: t in runs[k].run.results && runs[k].run.results[t].status == Passed
  }

  /** The requests from the `n`th on give as many runs as are left to make, and all are green. */
  predicate GreenFrom(found: Reproduction, w: World, n: nat, left: nat)
    decreases left
  {
    left == 0 || (w.runs(n).Some? && IsGreen(found, w.runs(n).value) && GreenFrom(found, w, n + 1, left - 1))
  }

  lemma {:induction false} GreenStepExactly(b: Baseline, w: World, n: nat, c: Change, found: Reproduction,
                                            green: seq<SuiteRun>, runs: seq<Evidence>)
    requires |green| <= GREEN_RUNS && forall k | 0 <= k < |green| :: IsGreen(found, green[k])
    ensures GreenStep(b, w, n, c, Some(found), green, runs).status.RgPassed?
            <==> GreenFrom(found, w, n, GREEN_RUNS - |green|) && (c.hasSources ==> found.reproduced != {})
    decreases GREEN_RUNS - |green|
  {
    hide IsGreen, GreenFailure, Reproduce;
    NoFailureMeansAllGreen(found, green, 0);
    if |green| < GREEN_RUNS {
      if w.runs(n).Some? {
        var more := green + [w.runs(n).value];
        NoFailureMeansAllGreen(found, more, 0);
        if IsGreen(found, w.runs(n).value) {
          GreenStepExactly(b, w, n + 1, c, found, more, runs + [Evidence(Green, w.runs(n).value)]);
        } else {
          assert !IsGreen(found, more[|green|]);
        }
      }
    }
  }

  /** The `n`th request gives a run that passes everything that the first run showed has to pass. */
  ghost predicate PassesAt(b: Baseline, first: SuiteRun, c: Change, w: World, n: nat) {
    w.runs(n).Some? && PassesAll(b, first, c.changed, w.runs(n).value)
  }

  ghost predicate ThreePass(b: Baseline, first: SuiteRun, c: Change, w: World, n: nat) {
    PassesAt(b, first, c, w, n) && PassesAt(b, first, c, w, n + 1) && PassesAt(b, first, c, w, n + 2)
  }

  lemma ThreeGreenPass(b: Baseline, first: SuiteRun, c: Change, w: World, n: nat)
    ensures GreenFrom(Reproduce(b, first, c.changed), w, n, GREEN_RUNS) <==> ThreePass(b, first, c, w, n)
  {
    hide Reproduce, IsGreen, PassesAll, GreenFrom;
    var found := Reproduce(b, first, c.changed);
    forall run
      ensures IsGreen(found, run) <==> PassesAll(b, first, c.changed, run)
    {
      GreenPassesAll(b, first, c.changed, run);
    }
    ThreeGreen(found, w, n);
  }

  lemma ThreeGreen(found: Reproduction, w: World, n: nat)
    ensures GreenFrom(found, w, n, 3) <==>
            && w.runs(n).Some? && IsGreen(found, w.runs(n).value)
            && w.runs(n + 1).Some? && IsGreen(found, w.runs(n + 1).value)
            && w.runs(n + 2).Some? && IsGreen(found, w.runs(n + 2).value)
  {
    hide IsGreen;
    assert GreenFrom(found, w, n + 1, 2)
           <==> w.runs(n + 1).Some? && IsGreen(found, w.runs(n + 1).value) && GreenFrom(found, w, n + 2, 1);
  }

  /** Red/green passes exactly when the patch has tests that stay and, with source changes, the run
      without them reproduces a test and the next three runs pass all that it asks for; without
      source changes, when the first three runs pass all that the first of them asks for. */
  ghost predicate RedGreenPasses(b: Baseline, w: World, n: nat, c: Change) {
    && c.hasTests
    && w.runs(n).Some?
    && var first := w.runs(n).value;
       if c.hasSources then ThreePass(b, first, c, w, n + 1) && exists t :: Reproduces(b, first, c.changed, t)
       else ThreePass(b, first, c, w, n)
  }

  lemma RedGreenPassesExactly(b: Baseline, w: World, n: nat, c: Change)
    ensures CheckRedGreen(b, w, n, c).status.RgPassed? <==> RedGreenPasses(b, w, n, c)
  {
    hide Reproduce, IsGreen, GreenFailure, PassesAll, Reproduces, ThreePass, GreenFrom;
    if c.hasTests && w.runs(n).Some? {
      var first := w.runs(n).value;
      var found := Reproduce(b, first, c.changed);
      forall t
        ensures t in found.reproduced <==> Reproduces(b, first, c.changed, t)
      {
        ReproductionExactly(b, first, c.changed, t);
      }
      if c.hasSources {
        ThreeGreenPass(b, first, c, w, n + 1);
        GreenStepExactly(b, w, n + 1, c, found, [], [Evidence(Red, first)]);
      } else {
        ThreeGreenPass(b, first, c, w, n);
        GreenStepExactly(b, w, n, c, found, [], []);
        FirstGreenFinds(b, w, n, c);
      }
    }
  }

  /** Without a red run, the first green one says what has to pass. */
  lemma FirstGreenFinds(b: Baseline, w: World, n: nat, c: Change)
    requires w.runs(n).Some?
    ensures var found := Reproduce(b, w.runs(n).value, c.changed);
            GreenStep(b, w, n, c, None, [], []) == GreenStep(b, w, n, c, Some(found), [], [])
  {
    hide Reproduce, GreenFailure, GreenVerdict;
  }

  /** The error for a green step without tests cannot happen. */
  lemma GreenStepFindsTests(b: Baseline, w: World, n: nat, c: Change)
    ensures !CheckRedGreen(b, w, n, c).missed
  {
    hide Reproduce, GreenFailure;
    if c.hasTests {
      if !c.hasSources {
        GreenStepIsSound(b, w, n, c, None, [], [], []);
      } else if w.runs(n).Some? {
        var first := [Evidence(Red, w.runs(n).value)];
        GreenStepIsSound(b, w, n + 1, c, Some(Reproduce(b, w.runs(n).value, c.changed)), [], first, first);
      }
    }
  }

  // ---------------------------------------------------------------- the result

  datatype CheckResult = CheckResult(digest: nat, passed: bool, redGreen: Option<RedGreen>, regression: Option<Regression>)

  /** What `check` starts from: the patch's digest, its gates, whether it applies to the snapshot
      and its test part does, the change, and whether it has related tests. */
  datatype Fix = Fix(digest: nat, gates: seq<bool>, textGate: bool, applies: bool, testsApply: bool, change: Change, related: bool)

  predicate All(gates: seq<bool>) {
    forall k | 0 <= k < |gates| :: gates[k]
  }

  /** `_run_tests`. */
  function RunTests(b: Baseline, w: World, f: Fix): (RedGreen, Regression) {
    if !f.applies || (f.change.hasTests && f.change.hasSources && !f.testsApply) then
      (RedGreen(RgFailed, None, [], false, 0), Regression(NotRun, false, {}, []))
    else
      var redGreen := CheckRedGreen(b, w, 0, f.change);
      (redGreen, Regress(b, w, redGreen.next, f.related))
  }

  /** `check`: the tests run only when the diff gates passed; the text gate counts for the verdict. */
  function Check(b: Baseline, w: World, f: Fix): CheckResult {
    if !All(f.gates) then CheckResult(f.digest, false, None, None)
    else
      var (redGreen, regression) := RunTests(b, w, f);
      CheckResult(f.digest, f.textGate && redGreen.status != RgFailed && regression.status != Failing, Some(redGreen), Some(regression))
  }

  // ---------------------------------------------------------------- what is recorded of a check

  /** The runs that the requests from `n` to `m` gave. */
  function Made(w: World, n: nat, m: nat): seq<SuiteRun>
    decreases m
  {
    if m <= n then [] else Made(w, n, m - 1) + if w.runs(m - 1).Some? then [w.runs(m - 1).value] else []
  }

  function RunsOf(runs: seq<Evidence>): seq<SuiteRun> {
    seq(|runs|, k requires 0 <= k < |runs| => runs[k].run)
  }

  /** The evidence is every run that the requests from `n` to `m` gave, each once and in order. */
  predicate Records(w: World, n: nat, m: nat, runs: seq<Evidence>) {
    n <= m && RunsOf(runs) == Made(w, n, m)
  }

  lemma RecordsNothing(w: World, n: nat)
    ensures Records(w, n, n, [])
  {}

  lemma RecordsOneMore(w: World, n: nat, m: nat, runs: seq<Evidence>, kind: RunKind)
    requires Records(w, n, m, runs)
    ensures w.runs(m).Some? ==> Records(w, n, m + 1, runs + [Evidence(kind, w.runs(m).value)])
    ensures w.runs(m).None? ==> Records(w, n, m + 1, runs)
  {
    if w.runs(m).Some? { assert RunsOf(runs + [Evidence(kind, w.runs(m).value)]) == RunsOf(runs) + [w.runs(m).value]; }
  }

  lemma {:induction false} GreenStepRecords(b: Baseline, w: World, n: nat, m: nat, c: Change, found: Option<Reproduction>,
                                            green: seq<SuiteRun>, runs: seq<Evidence>)
    requires |green| <= GREEN_RUNS && Records(w, n, m, runs)
    ensures var r := GreenStep(b, w, m, c, found, green, runs); Records(w, n, r.next, r.runs)
    decreases GREEN_RUNS - |green|
  {
    hide Records, Reproduce, GreenFailure;
    RecordsOneMore(w, n, m, runs, Green);
    if |green| < GREEN_RUNS && w.runs(m).Some? {
      var run := w.runs(m).value;
      var seen := if found.Some? then found else Some(Reproduce(b, run, c.changed));
      if GreenFailure(seen.value, green + [run], 0).None? {
        GreenStepRecords(b, w, n, m + 1, c, seen, green + [run], runs + [Evidence(Green, run)]);
      }
    }
  }

  lemma RedGreenRecords(b: Baseline, w: World, n: nat, c: Change)
    ensures var r := CheckRedGreen(b, w, n, c); Records(w, n, r.next, r.runs)
  {
    hide Records, Reproduce, GreenStep;
    RecordsNothing(w, n);
    RecordsOneMore(w, n, n, [], Red);
    assert w.runs(n).Some? ==> [] + [Evidence(Red, w.runs(n).value)] == [Evidence(Red, w.runs(n).value)];
    if c.hasTests && !c.hasSources { GreenStepRecords(b, w, n, n, c, None, [], []); }
    if c.hasTests && c.hasSources && w.runs(n).Some? {
      var red := w.runs(n).value;
      GreenStepRecords(b, w, n, n + 1, c, Some(Reproduce(b, red, c.changed)), [], [Evidence(Red, red)]);
    }
  }

  lemma {:induction false} RerunsRecord(w: World, n: nat, m: nat, found: set<string>, done: nat, runs: seq<Evidence>)
    requires done <= REGRESSION_RERUNS && Records(w, n, m, runs)
    ensures var r := Reruns(w, m, found, done, runs); Records(w, n, r.next, r.runs)
    ensures forall k | |runs| <= k < |Reruns(w, m, found, done, runs).runs| :: Reruns(w, m, found, done, runs).runs[k].kind == Rerun
    ensures runs <= Reruns(w, m, found, done, runs).runs
    decreases REGRESSION_RERUNS - done
  {
    hide Records, StillFailing;
    RecordsOneMore(w, n, m, runs, Rerun);
    if done < REGRESSION_RERUNS && found != {} && w.runs(m).Some? {
      RerunsRecord(w, n, m + 1, StillFailing(found, w.runs(m).value), done + 1, runs + [Evidence(Rerun, w.runs(m).value)]);
    }
  }

  predicate HasFullSuite(runs: seq<Evidence>) {
    exists k | 0 <= k < |runs| :: runs[k].kind == FullSuite
  }

  lemma RegressionRunRecords(b: Baseline, w: World, n: nat, m: nat, kind: RunKind, runs: seq<Evidence>)
    requires Records(w, n, m, runs)
    ensures var r := RunRegression(b, w, m, kind, runs);
            && Records(w, n, r.next, r.runs)
            && (HasFullSuite(r.runs) <==> HasFullSuite(runs) || (r.ran && kind == FullSuite))
  {
    hide Records, NewFailures, Reruns;
    RecordsOneMore(w, n, m, runs, kind);
    if w.runs(m).Some? {
      var run := w.runs(m).value;
      var made := runs + [Evidence(kind, run)];
      assert made[|runs|].kind == kind && forall k | 0 <= k < |runs| :: made[k] == runs[k];
      if Usable(run) {
        RerunsRecord(w, n, m + 1, NewFailures(b, run, kind == FullSuite), 0, made);
        var r := Reruns(w, m + 1, NewFailures(b, run, kind == FullSuite), 0, made);
        RerunsAfterRun(w, m + 1, NewFailures(b, run, kind == FullSuite), 0, made);
        assert forall k | 0 <= k < |made| :: r.runs[k] == made[k];
      }
    }
  }

  lemma {:induction false} RerunsAfterRun(w: World, n: nat, found: set<string>, done: nat, runs: seq<Evidence>)
    requires done <= REGRESSION_RERUNS
    ensures Reruns(w, n, found, done, runs).ran
    decreases REGRESSION_RERUNS - done
  {
    hide StillFailing;
    if done < REGRESSION_RERUNS && found != {} && w.runs(n).Some? {
      RerunsAfterRun(w, n + 1, StillFailing(found, w.runs(n).value), done + 1, runs + [Evidence(Rerun, w.runs(n).value)]);
    }
  }

  lemma RegressionRecords(b: Baseline, w: World, n: nat, related: bool) returns (end: nat)
    ensures var r := Regress(b, w, n, related); Records(w, n, end, r.runs) && (r.fullSuite <==> HasFullSuite(r.runs))
  {
    hide Records, RunRegression, HasFullSuite;
    RecordsNothing(w, n);
    NoFullSuite();
    RegressionRunRecords(b, w, n, n, Related, []);
    var first := if related then RunRegression(b, w, n, Related, []) else RegressionRun(false, false, {}, [], n);
    end := first.next;
    RegressionRunRecords(b, w, n, first.next, FullSuite, first.runs);
    if !(first.ran && first.newFailures != {}) && FullRun(b, w, first.next, first.runs).Some? {
      end := FullRun(b, w, first.next, first.runs).value.next;
    }
  }

  lemma NoFullSuite()
    ensures !HasFullSuite([])
  {}

  lemma {:induction false} MadeConcat(w: World, n: nat, m: nat, end: nat)
    requires n <= m <= end
    ensures Made(w, n, end) == Made(w, n, m) + Made(w, m, end)
    decreases end - m
  {
    if m < end { MadeConcat(w, n, m, end - 1); } else { assert Made(w, n, m) + [] == Made(w, n, m); }
  }

  /** The evidence of a check is every run that was made, each once and in order;
      regression says that the full suite ran exactly when such a run is among its evidence. */
  lemma EveryRunIsRecorded(b: Baseline, w: World, f: Fix) returns (end: nat)
    ensures var (redGreen, regression) := RunTests(b, w, f);
            && RunsOf(redGreen.runs) + RunsOf(regression.runs) == Made(w, 0, end)
            && (regression.fullSuite <==> exists k :: 0 <= k < |regression.runs| && regression.runs[k].kind == FullSuite)
  {
    hide CheckRedGreen, Regress;
    if !f.applies || (f.change.hasTests && f.change.hasSources && !f.testsApply) {
      end := 0;
    } else {
      RedGreenRecords(b, w, 0, f.change);
      var next := CheckRedGreen(b, w, 0, f.change).next;
      end := RegressionRecords(b, w, next, f.related);
      MadeConcat(w, 0, next, end);
    }
  }

  /** A passing check: every gate passed, red/green did not fail and no test regressed. When the
      patch changes tests and sources, that is a reproduced and fixed test. Regression either
      passed, or was not run because no related test was run and the full suite was skipped. */
  lemma CheckPassesMeans(b: Baseline, w: World, f: Fix)
    requires Check(b, w, f).passed
    ensures var r := Check(b, w, f);
            && (forall k | 0 <= k < |f.gates| :: f.gates[k]) && f.textGate && f.applies && r.redGreen.Some? && r.regression.Some?
            && var (redGreen, regression) := (r.redGreen.value, r.regression.value);
               && (if f.change.hasTests then redGreen.status.RgPassed? && GreenRunsPass(b, f.change, redGreen)
                   else redGreen.status.NotApplicable?)
               && (f.change.hasTests && f.change.hasSources ==>
                     exists t :: Reproduces(b, redGreen.runs[0].run, f.change.changed, t) && BrokenThenFixed(redGreen.runs, t))
               && regression.newFailures == {}
               && match regression.status
                  case Passing => ShownPassing(b, w, redGreen.next, f.related, regression)
                  case NotRun => NoRegressionRun(b, w, redGreen.next, f.related)
                  case Failing => false
  {
    hide BrokenThenFixed, ShownPassing, FullSuiteSkipped, PassesAll, Reproduces;
    RedGreenVerdicts(b, w, 0, f.change);
    if f.change.hasTests { RedGreenPassesMeans(b, w, 0, f.change); }
    var regression := Check(b, w, f).regression.value;
    var n := Check(b, w, f).redGreen.value.next;
    hide CheckRedGreen;
    if t :| t in regression.newFailures { ReportedFailuresAreReal(b, w, n, f.related, t); }
    hide Regress;
    NotRunExactly(b, w, n, f.related);
    if regression.status.Passing? { RegressionPassesMeans(b, w, n, f.related); }
  }

  /** A check passes exactly when every gate passes, the patch and its test part apply, red/green
      passes if the patch has tests, and regression passes or nothing can be run for it. */
  lemma CheckPassesExactly(b: Baseline, w: World, f: Fix)
    ensures Check(b, w, f).passed <==>
            && (forall k | 0 <= k < |f.gates| :: f.gates[k]) && f.textGate && f.applies
            && (f.change.hasTests && f.change.hasSources ==> f.testsApply)
            && (f.change.hasTests ==> RedGreenPasses(b, w, 0, f.change))
            && var next := CheckRedGreen(b, w, 0, f.change).next;
               RegressionPasses(b, w, next, f.related) || NoRegressionRun(b, w, next, f.related)
  {
    hide CheckRedGreen, Regress, FullSuiteSkipped, RedGreenPasses, RegressionPasses;
    RedGreenVerdicts(b, w, 0, f.change);
    RedGreenPassesExactly(b, w, 0, f.change);
    var next := CheckRedGreen(b, w, 0, f.change).next;
    RegressionPassesExactly(b, w, next, f.related);
    NotRunExactly(b, w, next, f.related);
  }

  /** A check passes although its regression never ran exactly when nothing else fails it and no
      regression run was possible after red/green. */
  lemma PassesWithoutRegressionExactly(b: Baseline, w: World, f: Fix)
    ensures var r := Check(b, w, f);
            r.passed && r.regression.value.status.NotRun? <==>
            && All(f.gates) && f.textGate && f.applies
            && (f.change.hasTests && f.change.hasSources ==> f.testsApply)
            && var redGreen := CheckRedGreen(b, w, 0, f.change);
               !redGreen.status.RgFailed? && NoRegressionRun(b, w, redGreen.next, f.related)
  {
    hide CheckRedGreen, Regress, FullSuiteSkipped;
    NotRunExactly(b, w, CheckRedGreen(b, w, 0, f.change).next, f.related);
  }

  /** One family of them: a patch without tests and without related tests, checked against a base
      whose own suite did not finish. */
  lemma UnfinishedBaselinePasses(b: Baseline, w: World, f: Fix)
    requires All(f.gates) && f.textGate && f.applies && !f.change.hasTests && !f.related && b.timedOut
    ensures Check(b, w, f).passed && Check(b, w, f).regression.value.status.NotRun?
  {
    PassesWithoutRegressionExactly(b, w, f);
  }

  lemma RedGreenVerdicts(b: Baseline, w: World, n: nat, c: Change)
    ensures CheckRedGreen(b, w, n, c).status.NotApplicable? <==> !c.hasTests
  {
    hide Reproduce, GreenFailure;
    if c.hasTests {
      if !c.hasSources { GreenStepApplies(b, w, n, c, None, [], []); }
      else if w.runs(n).Some? {
        GreenStepApplies(b, w, n + 1, c, Some(Reproduce(b, w.runs(n).value, c.changed)), [], [Evidence(Red, w.runs(n).value)]);
      }
    }
  }

  lemma {:induction false} GreenStepApplies(b: Baseline, w: World, n: nat, c: Change, found: Option<Reproduction>,
                                            green: seq<SuiteRun>, runs: seq<Evidence>)
    requires |green| <= GREEN_RUNS
    ensures !GreenStep(b, w, n, c, found, green, runs).status.NotApplicable?
    decreases GREEN_RUNS - |green|
  {
    hide Reproduce, GreenFailure;
    if |green| < GREEN_RUNS && w.runs(n).Some? {
      var run := w.runs(n).value;
      var seen := if found.Some? then found else Some(Reproduce(b, run, c.changed));
      if GreenFailure(seen.value, green + [run], 0).None? {
        GreenStepApplies(b, w, n + 1, c, seen, green + [run], runs + [Evidence(Green, run)]);
      }
    }
  }

  class FixChecks {
    const baseline: Baseline
    /** The result of the latest check of each diff. */
    var results: map<nat, CheckResult>
    var latest: Option<CheckResult>

    constructor (baseline: Baseline)
      ensures results == map[] && latest == None && this.baseline == baseline
    {
      this.baseline := baseline;
      results, latest := map[], None;
    }

    method Run(w: World, f: Fix) returns (r: CheckResult)
      modifies this
      ensures r == Check(baseline, w, f)
      ensures results == old(results)[f.digest := r] && latest == Some(r)
    {
      hide CheckRedGreen, Regress;
      var redGreen: Option<RedGreen> := None;
      var regression: Option<Regression> := None;
      if All(f.gates) {
        if !f.applies || (f.change.hasTests && f.change.hasSources && !f.testsApply) {
          redGreen := Some(RedGreen(RgFailed, None, [], false, 0));
          regression := Some(Regression(NotRun, false, {}, []));
        } else {
          var rg := CheckRedGreenLoop(baseline, w, 0, f.change);
          var rr := RegressLoop(baseline, w, rg.next, f.related);
          redGreen, regression := Some(rg), Some(rr);
        }
      }
      var passed := All(f.gates) && f.textGate && redGreen.Some? && redGreen.value.status != RgFailed
                    && regression.Some? && regression.value.status != Failing;
      r := CheckResult(f.digest, passed, redGreen, regression);
      results := results[f.digest := r];
      latest := Some(r);
    }
  }
}
