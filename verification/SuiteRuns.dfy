/** What offline test runs say about a patch, compared with the baseline. */
module SuiteRuns {
  import opened Results

  datatype Status = Passed | Failed | Error | Skipped

  /** One test's result; `notReproduced` when its message shows an import or syntax error. */
  datatype CaseResult = CaseResult(status: Status, notReproduced: bool, collectionError: bool)

  /** One run of the tests; `broken` when a build command, the container or the report failed. */
  datatype SuiteRun = SuiteRun(broken: bool, timedOut: bool, perTest: bool, results: map<string, CaseResult>)

  datatype Baseline = Baseline(passStable: set<string>, failBefore: set<string>, flaky: set<string>, skip: set<string>, timedOut: bool)

  const SUITE_TEST_ID := "<suite>"

  predicate Usable(run: SuiteRun) {
    !run.broken && !run.timedOut
  }

  predicate IsFailing(s: Status) {
    s == Failed || s == Error
  }

  /** What a test that passed in every baseline run must not become. */
  predicate IsRegressed(s: Status) {
    s == Failed || s == Error || s == Skipped
  }

  // ---------------------------------------------------------------- new failures

  /** `new_failures`, of a usable run. */
  function NewFailures(b: Baseline, run: SuiteRun, full: bool): set<string> {
    set t | t in b.passStable && ((t !in run.results && full) || (t in run.results && IsRegressed(run.results[t].status)))
  }

  /** `still_failing`. */
  function StillFailing(candidates: set<string>, rerun: SuiteRun): set<string> {
    if !Usable(rerun) then candidates
    else set t | t in candidates && (t !in rerun.results || IsRegressed(rerun.results[t].status))
  }

  /** A test that always passed before did not pass in the run; a run of the full suite should have it. */
  predicate FailsFirst(b: Baseline, run: SuiteRun, full: bool, t: string) {
    t in b.passStable && if t in run.results then run.results[t].status != Passed else full
  }

  /** It did not pass again; a re-run that broke or timed out does not clear it. */
  predicate FailsAgain(rerun: SuiteRun, t: string) {
    !(Usable(rerun) && t in rerun.results && rerun.results[t].status == Passed)
  }

  // ---------------------------------------------------------------- red and green

  /** What a patch's tests show without its sources. */
  datatype Reproduction = Reproduction(targets: set<string>, reproduced: set<string>, uncollected: set<string>)

  predicate FailsByAssertion(r: CaseResult) {
    r.status == Failed && !r.notReproduced
  }

  /** `reproduction`. */
  function Reproduce(b: Baseline, red: SuiteRun, changed: string -> bool): Reproduction {
    if red.broken || red.timedOut then Reproduction({}, {}, {})
    else if !red.perTest then
      if SUITE_TEST_ID !in b.passStable || SUITE_TEST_ID !in red.results then Reproduction({}, {}, {})
      else Reproduction({SUITE_TEST_ID}, if FailsByAssertion(red.results[SUITE_TEST_ID]) then {SUITE_TEST_ID} else {}, {})
    else
      var known := b.passStable + b.failBefore + b.flaky + b.skip;
      var added := set t | t in red.results &&
                     (t !in known || (t in b.passStable && IsFailing(red.results[t].status) && changed(t)));
      var targets := set t | t in added && !red.results[t].collectionError;
      Reproduction(targets, set t | t in targets && FailsByAssertion(red.results[t]),
                   set t | t in added && red.results[t].collectionError)
  }

  /** The patch adds the test, or edits it and it no longer passes: nothing is known of it, or it
      always passed before, is changed, and fails or errors now. */
  predicate FromPatch(b: Baseline, red: SuiteRun, changed: string -> bool, t: string) {
    t in red.results
    && ((t !in b.passStable && t !in b.failBefore && t !in b.flaky && t !in b.skip)
        || (t in b.passStable && changed(t) && red.results[t].status in {Failed, Error}))
  }

  /** After this first run the test has to pass in every green one; without results per test that
      is the suite as a whole, where it always passed before. */
  predicate MustPass(b: Baseline, red: SuiteRun, changed: string -> bool, t: string) {
    && Usable(red)
    && if red.perTest then FromPatch(b, red, changed, t) && !red.results[t].collectionError
       else t == "<suite>" && t in b.passStable && t in red.results
  }

  /** The file, module or package could not be collected, and has to collect in every green run. */
  predicate MustCollect(b: Baseline, red: SuiteRun, changed: string -> bool, t: string) {
    Usable(red) && red.perTest && FromPatch(b, red, changed, t) && red.results[t].collectionError
  }

  /** The test failed by an assertion, not for an import or syntax error. */
  predicate Reproduces(b: Baseline, red: SuiteRun, changed: string -> bool, t: string) {
    MustPass(b, red, changed, t) && red.results[t].status == Failed && !red.results[t].notReproduced
  }

  lemma ReproductionExactly(b: Baseline, red: SuiteRun, changed: string -> bool, t: string)
    ensures var found := Reproduce(b, red, changed);
            && (t in found.targets <==> MustPass(b, red, changed, t))
            && (t in found.uncollected <==> MustCollect(b, red, changed, t))
            && (t in found.reproduced <==> Reproduces(b, red, changed, t))
  {}

  /** `_within`: tests carry their file, module or package as a prefix. */
  predicate Within(t: string, scope: string) {
    scope + "::" <= t || scope + "." <= t
  }

  /** What `green_failure` counts against a run: targets that did not pass, scopes that did not
      collect or ran no passing test, and failing tests inside them. */
  function Failing(found: Reproduction, run: SuiteRun): set<string> {
    (set t | t in found.targets && !(t in run.results && run.results[t].status == Passed))
    + (set scope | scope in found.uncollected &&
         (scope in run.results || !exists t | t in run.results :: Within(t, scope) && run.results[t].status == Passed))
    + (set t | t in run.results && IsFailing(run.results[t].status) && exists scope | scope in found.uncollected :: Within(t, scope))
  }

  /** `green_failure`: the number of the first run that is not green, 0 when there was none at all. */
  function GreenFailure(found: Reproduction, green: seq<SuiteRun>, k: nat): Option<nat>
    requires k <= |green|
    decreases |green| - k
  {
    if green == [] then Some(0)
    else if k == |green| then None
    else if green[k].broken || green[k].timedOut || Failing(found, green[k]) != {} then Some(k + 1)
    else GreenFailure(found, green, k + 1)
  }

  /** The scope collects now, runs a passing test and fails none. */
  predicate Collects(run: SuiteRun, scope: string) {
    && scope !in run.results
    && (exists t | t in run.results :: Within(t, scope) && run.results[t].status == Passed)
    && (forall t | t in run.results && Within(t, scope) :: run.results[t].status !in {Failed, Error})
  }

  /** One run in which every target passes and every scope collects. */
  predicate IsGreen(found: Reproduction, run: SuiteRun) {
    && Usable(run)
    && (forall t | t in found.targets :: t in run.results && run.results[t].status == Passed)
    && (forall scope | scope in found.uncollected :: Collects(run, scope))
  }

  lemma NothingFailing(found: Reproduction, run: SuiteRun)
    ensures !run.broken && !run.timedOut && Failing(found, run) == {} <==> IsGreen(found, run)
  {
    if IsGreen(found, run) {
      forall t
        ensures t !in Failing(found, run)
      {
        assert t in found.uncollected ==> Collects(run, t);
        assert forall scope | scope in found.uncollected :: Collects(run, scope);
      }
    }
    if !run.broken && !run.timedOut && Failing(found, run) == {} {
      forall t | t in found.targets
        ensures t in run.results && run.results[t].status == Passed
      {
        assert t !in Failing(found, run);
      }
      forall scope | scope in found.uncollected
        ensures Collects(run, scope)
      {
        assert scope !in Failing(found, run);
        forall t | t in run.results && Within(t, scope)
          ensures run.results[t].status !in {Failed, Error}
        {
          assert t !in Failing(found, run);
        }
      }
    }
  }

  lemma {:induction false} NoFailureMeansAllGreen(found: Reproduction, green: seq<SuiteRun>, k: nat)
    requires k <= |green|
    ensures GreenFailure(found, green, k).None? <==> green != [] && forall j | k <= j < |green| :: IsGreen(found, green[j])
    decreases |green| - k
  {
    hide IsGreen, Failing;
    if green != [] && k < |green| {
      NothingFailing(found, green[k]);
      NoFailureMeansAllGreen(found, green, k + 1);
    }
  }

  /** Measured by the first run, this one is green: every test that has to pass does, and every scope
      that has to collect does. */
  ghost predicate PassesAll(b: Baseline, first: SuiteRun, changed: string -> bool, run: SuiteRun) {
    && Usable(run)
    && (forall t | MustPass(b, first, changed, t) :: t in run.results && run.results[t].status == Passed)
    && (forall scope | MustCollect(b, first, changed, scope) :: Collects(run, scope))
  }

  lemma GreenPassesAll(b: Baseline, first: SuiteRun, changed: string -> bool, run: SuiteRun)
    ensures IsGreen(Reproduce(b, first, changed), run) <==> PassesAll(b, first, changed, run)
  {
    hide Reproduce, MustPass, MustCollect, Collects;
    forall t
      ensures t in Reproduce(b, first, changed).targets <==> MustPass(b, first, changed, t)
      ensures t in Reproduce(b, first, changed).uncollected <==> MustCollect(b, first, changed, t)
    {
      ReproductionExactly(b, first, changed, t);
    }
  }

  /** A test lies in a scope when its name is the scope's, then two colons or a dot, then the rest. */
  lemma WithinExactly(t: string, scope: string)
    ensures Within(t, scope) <==>
            && |scope| < |t| && (forall k | 0 <= k < |scope| :: t[k] == scope[k])
            && (t[|scope|] == '.' || (|scope| + 1 < |t| && t[|scope|] == ':' && t[|scope| + 1] == ':'))
  {
    assert (scope + "::") == scope + [':', ':'] && (scope + ".") == scope + ['.'];
  }

  /** The run that a failure of the green step names is the first that is not green. */
  lemma {:induction false} FailureIsTheFirst(found: Reproduction, green: seq<SuiteRun>, k: nat)
    requires k <= |green| && (k < |green| || green == [])
    ensures var failed := GreenFailure(found, green, k);
            && (green == [] ==> failed == Some(0))
            && (failed.Some? && green != [] ==>
                  && k < failed.value <= |green| && !IsGreen(found, green[failed.value - 1])
                  && forall j | k <= j < failed.value - 1 :: IsGreen(found, green[j]))
    decreases |green| - k
  {
    hide Failing, IsGreen;
    if k < |green| { NothingFailing(found, green[k]); }
    if k + 1 < |green| { FailureIsTheFirst(found, green, k + 1); }
  }
}
