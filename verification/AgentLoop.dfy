/** The agent's transcript: turns, tool calls, checked submits and critic rounds. */
module AgentLoop {
  import opened Results
  import opened Seqs

  const MAX_NUDGES := 2
  const MAX_MALFORMED_TURNS := 3
  const MAX_REPEATED_FAILURES := 3
  const MAX_FIX_SUBMITS := 4
  const MAX_TURNS := 100

  /** A digest names one diff of the workspace. */
  datatype CheckReport = CheckReport(passed: bool, digest: nat)

  datatype Submission = Submission(skip: bool, text: string)

  /** What the checker will answer to a submit: the check, and the text check alone. */
  datatype Verdict = Verdict(passes: bool, textProblem: bool)

  datatype CommandRun = CommandRun(command: string, passed: bool)

  /** A tool's effect; only tools change the workspace. */
  datatype ToolEffect = Ran(digest: nat, invalid: bool, outOfTime: bool, commands: seq<CommandRun>) | SandboxFailed | ProviderFailed

  datatype Request = Submit(submission: Option<Submission>, verdict: Verdict) | Tool(effect: ToolEffect)

  /** One tool call of a turn; `token` when its arguments hold a credential. */
  datatype ToolCall = ToolCall(token: bool, request: Request)

  datatype StopReason = Turns | Budget | Time | Context | NoToolCall | Malformed | RepeatedFailure | SubmitLimit

  datatype Outcome = Finished(submission: Submission) | DidNotFinish(reason: StopReason) | LoopFailure(sandbox: bool)

  datatype Reply = Accept | Continue | Stop

  /** What happened, for the record. */
  datatype Event = ToolRan | FixSubmitted | Checked(report: CheckReport) | Accepted(report: CheckReport)

  /** The fields of the loop and of the solver, the workspace's digest, and the record. */
  datatype State = State(
    turns: nat, nudges: nat, malformedTurns: nat, failingCommand: Option<string>, failuresInARow: nat,
    submits: nat, passed: Option<CheckReport>, accepted: Option<CheckReport>,
    digest: nat, log: seq<Event>)

  // ---------------------------------------------------------------- submits

  function Logged(s: State, e: Event): State {
    s.(log := s.log + [e])
  }

  /** `Solver._on_submit`. */
  function OnSubmit(s: State, submission: Submission, v: Verdict, lastTurn: bool): (State, Reply) {
    if submission.skip then (s, Accept)
    else
      var t := Logged(s.(submits := s.submits + 1), FixSubmitted);
      var left := MAX_FIX_SUBMITS - t.submits;
      if t.passed.Some? && t.digest == t.passed.value.digest then
        if !v.textProblem then (Logged(t.(accepted := t.passed), Accepted(t.passed.value)), Accept)
        else if left == 0 then (t, Stop)
        else (t, Continue)
      else if left == 0 then (t, Stop)
      else
        var report := CheckReport(v.passes, t.digest);
        var u := Logged(t.(passed := if report.passed then Some(report) else None), Checked(report));
        if report.passed && lastTurn then (Logged(u.(accepted := Some(report)), Accepted(report)), Accept)
        else if report.passed then (u, Continue)
        else if left < 2 then (u, Stop)
        else (u, Continue)
  }

  // ---------------------------------------------------------------- tools

  function EndStreak(s: State): State {
    s.(failingCommand := None, failuresInARow := 0)
  }

  function AfterRun(s: State, run: CommandRun): State {
    if run.passed then EndStreak(s)
    else if s.failingCommand == Some(run.command) then s.(failuresInARow := s.failuresInARow + 1)
    else s.(failingCommand := Some(run.command), failuresInARow := 1)
  }

  /** The commands of one tool call, until the same one has failed too often in a row. */
  function AfterRuns(s: State, runs: seq<CommandRun>, k: nat): (State, Option<Outcome>)
    requires k <= |runs|
    decreases |runs| - k
  {
    if k == |runs| then (s, None)
    else
      var t := AfterRun(s, runs[k]);
      if t.failuresInARow >= MAX_REPEATED_FAILURES then (t, Some(DidNotFinish(RepeatedFailure))) else AfterRuns(t, runs, k + 1)
  }

  /** `_after_tool`. */
  function AfterTool(s: State, outOfTime: bool, runs: seq<CommandRun>): (State, Option<Outcome>) {
    if outOfTime then (s, Some(DidNotFinish(Time)))
    else AfterRuns(if runs == [] then EndStreak(s) else s, runs, 0)
  }

  // ---------------------------------------------------------------- one turn

  /** Where the calls of a turn lead: the outcome so far, the invalid calls, whether submit was
      called, and whether the sandbox or the provider failed. */
  datatype Progress = Progress(state: State, outcome: Option<Outcome>, invalid: nat, submitted: bool, failed: Option<bool>)

  function AfterCall(p: Progress, call: ToolCall, lastTurn: bool): Progress {
    if p.outcome.Some? then p
    else if call.token then p.(state := EndStreak(p.state), invalid := p.invalid + 1)
    else
      match call.request
      case Submit(submission, v) =>
        if p.submitted then p.(invalid := p.invalid + 1)
        else if submission.None? then p.(state := EndStreak(p.state), submitted := true, invalid := p.invalid + 1)
        else
          var (after, reply) := OnSubmit(EndStreak(p.state), submission.value, v, lastTurn);
          var outcome := match reply
            case Accept => Some(Finished(submission.value))
            case Stop => Some(DidNotFinish(SubmitLimit))
            case Continue => None;
          p.(state := after, submitted := true, outcome := outcome)
      case Tool(effect) =>
        match effect
        case SandboxFailed => p.(failed := Some(true))
        case ProviderFailed => p.(failed := Some(false))
        case Ran(digest, invalid, outOfTime, commands) =>
          var (after, outcome) := AfterTool(Logged(p.state.(digest := digest), ToolRan), outOfTime, commands);
          p.(state := after, outcome := outcome, invalid := p.invalid + if invalid then 1 else 0)
  }

  function AfterCalls(p: Progress, calls: seq<ToolCall>, k: nat, lastTurn: bool): Progress
    requires k <= |calls|
    decreases |calls| - k
  {
    if k == |calls| || p.failed.Some? then p else AfterCalls(AfterCall(p, calls[k], lastTurn), calls, k + 1, lastTurn)
  }

  /** `_answer`; a failure of the sandbox or the provider is an outcome too. */
  function Answer(s: State, calls: seq<ToolCall>, lastTurn: bool): (State, Option<Outcome>) {
    if calls == [] then
      if lastTurn then (s, None)
      else if s.nudges >= MAX_NUDGES then (s, Some(DidNotFinish(NoToolCall)))
      else (s.(nudges := s.nudges + 1), None)
    else
      var p := AfterCalls(Progress(s, None, 0, false, None), calls, 0, lastTurn);
      if p.failed.Some? then (p.state, Some(LoopFailure(p.failed.value)))
      else
        var t := p.state.(malformedTurns := if p.invalid == |calls| then p.state.malformedTurns + 1 else 0);
        (t, if p.outcome.None? && t.malformedTurns >= MAX_MALFORMED_TURNS then Some(DidNotFinish(Malformed)) else p.outcome)
  }

  // ---------------------------------------------------------------- one round

  /** What the transcript's length, the provider and the tools will do in each turn. */
  datatype World = World(nearLimit: nat -> bool, tooLong: nat -> bool, requested: nat -> Requested)

  /** What `_request` returns: a turn, a limit of time or money, or a failure of the provider. */
  datatype Requested = Turn(calls: seq<ToolCall>) | Refused(time: bool) | Failed

  function Limit(time: bool): StopReason {
    if time then Time else Budget
  }

  /** `_run_turns` from the state's turn on. */
  function RunTurns(s: State, w: World): (State, Outcome)
    decreases MAX_TURNS - s.turns
  {
    if s.turns >= MAX_TURNS then (s, DidNotFinish(Turns))
    else
      var lastTurn := w.nearLimit(s.turns);
      if lastTurn && w.tooLong(s.turns) then (s, DidNotFinish(Context))
      else
        match w.requested(s.turns)
        case Refused(time) => (s, DidNotFinish(Limit(time)))
        case Failed => (s, LoopFailure(false))
        case Turn(calls) =>
          TurnsStay(s.(turns := s.turns + 1), calls, lastTurn);
          var (t, outcome) := Answer(s.(turns := s.turns + 1), calls, lastTurn);
          if outcome.Some? then (t, outcome.value)
          else if lastTurn then (t, DidNotFinish(Context))
          else RunTurns(t, w)
  }

  lemma {:induction false} RunsKeepTurns(s: State, runs: seq<CommandRun>, k: nat)
    requires k <= |runs|
    ensures var t := AfterRuns(s, runs, k).0; SameBut(s, t)
    decreases |runs| - k
  {
    if k < |runs| { RunsKeepTurns(AfterRun(s, runs[k]), runs, k + 1); }
  }

  /** Everything but the failure streak is the same. */
  predicate SameBut(s: State, t: State) {
    t == s.(failingCommand := t.failingCommand, failuresInARow := t.failuresInARow)
  }

  lemma {:induction false} CallsKeepTurns(p: Progress, calls: seq<ToolCall>, k: nat, lastTurn: bool)
    requires k <= |calls|
    ensures AfterCalls(p, calls, k, lastTurn).state.turns == p.state.turns
    decreases |calls| - k
  {
    if k < |calls| && p.failed.None? {
      CallKeepsTurns(p, calls[k], lastTurn);
      hide AfterCall;
      CallsKeepTurns(AfterCall(p, calls[k], lastTurn), calls, k + 1, lastTurn);
    }
  }

  lemma CallKeepsTurns(p: Progress, call: ToolCall, lastTurn: bool)
    ensures AfterCall(p, call, lastTurn).state.turns == p.state.turns
  {
    if call.request.Tool? && call.request.effect.Ran? {
      var e := call.request.effect;
      var t := Logged(p.state.(digest := e.digest), ToolRan);
      RunsKeepTurns(if e.commands == [] then EndStreak(t) else t, e.commands, 0);
    }
  }

  lemma TurnsStay(s: State, calls: seq<ToolCall>, lastTurn: bool)
    ensures Answer(s, calls, lastTurn).0.turns == s.turns
  {
    CallsKeepTurns(Progress(s, None, 0, false, None), calls, 0, lastTurn);
  }

  datatype SolverOutcome =
    | SubmittedFix(submission: Submission, check: CheckReport)
    | SkippedIssue(submission: Submission)
    | Ended(outcome: Outcome)
    | StateError          // a fix ended the loop without a passing check

  /** `Solver._outcome`. */
  function SolverResult(s: State, outcome: Outcome): SolverOutcome {
    if !outcome.Finished? then Ended(outcome)
    else if outcome.submission.skip then SkippedIssue(outcome.submission)
    else if s.accepted.None? then StateError
    else SubmittedFix(outcome.submission, s.accepted.value)
  }

  /** A new round, after the critic's blockers; between rounds the workspace may have changed. */
  function NewRound(s: State, digest: nat): State {
    s.(submits := 0, passed := None, accepted := None, digest := digest)
  }

  function Round(s: State, w: World): (State, SolverOutcome) {
    var (t, outcome) := RunTurns(s, w);
    (t, SolverResult(t, outcome))
  }

  // ---------------------------------------------------------------- what every round keeps

  function FixSubmits(log: seq<Event>): nat {
    if log == [] then 0 else FixSubmits(log[..|log| - 1]) + if log[|log| - 1].FixSubmitted? then 1 else 0
  }

  /** Checks that failed. */
  function FailedChecks(log: seq<Event>): nat {
    if log == [] then 0
    else FailedChecks(log[..|log| - 1]) + if log[|log| - 1].Checked? && !log[|log| - 1].report.passed then 1 else 0
  }

  /** The report of the last check. */
  function LastCheck(log: seq<Event>): Option<CheckReport> {
    if log == [] then None
    else if log[|log| - 1].Checked? then Some(log[|log| - 1].report)
    else LastCheck(log[..|log| - 1])
  }

  lemma {:induction false} LastCheckIsIn(log: seq<Event>)
    ensures LastCheck(log).Some? ==> Checked(LastCheck(log).value) in log
    decreases |log|
  {
    if log != [] { LastCheckIsIn(log[..|log| - 1]); }
  }

  /** What was recorded after the first `from` events. */
  function Since(log: seq<Event>, from: nat): seq<Event> {
    if from <= |log| then log[from..] else []
  }

  predicate LastPassed(log: seq<Event>) {
    LastCheck(log).Some? && LastCheck(log).value.passed
  }

  /** While a round goes on: nothing is accepted, the report of the round's last check is remembered
      when it passed, and enough submits are left to still be accepted. */
  ghost predicate Open(s: State, from: nat) {
    && s.accepted.None? && from <= |s.log|
    && FixSubmits(Since(s.log, from)) == s.submits
    && FailedChecks(Since(s.log, from)) + (if s.passed.Some? then 1 else 0) <= s.submits
    && (match s.passed
        case Some(report) => report.passed && LastCheck(Since(s.log, from)) == Some(report) && s.submits + 1 <= MAX_FIX_SUBMITS
        case None => !LastPassed(Since(s.log, from)) && s.submits + 2 <= MAX_FIX_SUBMITS)
  }

  /** A round that accepted a fix: the round's last check passed, it names the workspace as it is,
      and nothing ran since. */
  ghost predicate AcceptedNow(s: State, from: nat) {
    && s.accepted.Some? && from < |s.log|
    && var report := s.accepted.value;
       && report.passed && report.digest == s.digest
       && LastCheck(Since(s.log, from)) == Some(report)
       && s.log[|s.log| - 1] == Accepted(report)
  }

  ghost predicate WithinSubmits(s: State, from: nat) {
    && from <= |s.log| && FixSubmits(Since(s.log, from)) == s.submits <= MAX_FIX_SUBMITS
    && FailedChecks(Since(s.log, from)) <= MAX_FIX_SUBMITS - 1
  }

  lemma SinceGrows(log: seq<Event>, from: nat, e: Event)
    requires from <= |log|
    ensures Since(log + [e], from) == Since(log, from) + [e]
    ensures FixSubmits(Since(log, from) + [e]) == FixSubmits(Since(log, from)) + if e.FixSubmitted? then 1 else 0
    ensures FailedChecks(Since(log, from) + [e]) == FailedChecks(Since(log, from)) + if e.Checked? && !e.report.passed then 1 else 0
    ensures LastCheck(Since(log, from) + [e]) == if e.Checked? then Some(e.report) else LastCheck(Since(log, from))
  {
    var part := log[from..] + [e];
    assert (log + [e])[from..] == part;
    assert part[..|part| - 1] == log[from..];
  }

  /** What one submit does to an open round. */
  lemma SubmitKeeps(s: State, submission: Submission, v: Verdict, lastTurn: bool, from: nat)
    requires Open(s, from)
    ensures var (t, reply) := OnSubmit(s, submission, v, lastTurn);
            && WithinSubmits(t, from)
            && (reply.Continue? ==> Open(t, from))
            && (reply.Accept? && !submission.skip ==> AcceptedNow(t, from))
  {
    hide FixSubmits, FailedChecks, LastCheck, Since;
    if !submission.skip {
      var t := Logged(s.(submits := s.submits + 1), FixSubmitted);
      SinceGrows(s.log, from, FixSubmitted);
      if t.passed.Some? && t.digest == t.passed.value.digest {
        SinceGrows(t.log, from, Accepted(t.passed.value));
      } else {
        var report := CheckReport(v.passes, t.digest);
        SinceGrows(t.log, from, Checked(report));
        SinceGrows(t.log + [Checked(report)], from, Accepted(report));
      }
    }
  }

  ghost predicate GoesOn(p: Progress, from: nat) {
    && WithinSubmits(p.state, from)
    && (p.outcome.None? ==> Open(p.state, from))
    && (p.outcome.Some? && p.outcome.value.Finished? && !p.outcome.value.submission.skip ==> AcceptedNow(p.state, from))
    && (p.outcome.Some? ==> p.failed.None?)
  }

  lemma CallKeeps(p: Progress, call: ToolCall, lastTurn: bool, from: nat)
    requires GoesOn(p, from) && p.failed.None?
    ensures GoesOn(AfterCall(p, call, lastTurn), from)
  {
    hide FixSubmits, FailedChecks, LastCheck, Since;
    if p.outcome.None? && !call.token {
      match call.request
      case Submit(submission, v) =>
        if submission.Some? { SubmitKeeps(EndStreak(p.state), submission.value, v, lastTurn, from); }
        hide OnSubmit;
      case Tool(effect) =>
        if effect.Ran? {
          var t := Logged(p.state.(digest := effect.digest), ToolRan);
          SinceGrows(p.state.log, from, ToolRan);
          RunsKeepTurns(if effect.commands == [] then EndStreak(t) else t, effect.commands, 0);
          RunsEndUnfinished(if effect.commands == [] then EndStreak(t) else t, effect.commands, 0);
          hide AfterRuns;
        }
    }
  }

  lemma {:induction false} RunsEndUnfinished(s: State, runs: seq<CommandRun>, k: nat)
    requires k <= |runs|
    ensures var outcome := AfterRuns(s, runs, k).1; outcome.Some? ==> outcome.value.DidNotFinish?
    decreases |runs| - k
  {
    if k < |runs| { RunsEndUnfinished(AfterRun(s, runs[k]), runs, k + 1); }
  }

  lemma {:induction false} CallsKeep(p: Progress, calls: seq<ToolCall>, k: nat, lastTurn: bool, from: nat)
    requires k <= |calls| && GoesOn(p, from)
    ensures GoesOn(AfterCalls(p, calls, k, lastTurn), from)
    decreases |calls| - k
  {
    hide GoesOn, AfterCall;
    if k < |calls| && p.failed.None? {
      CallKeeps(p, calls[k], lastTurn, from);
      CallsKeep(AfterCall(p, calls[k], lastTurn), calls, k + 1, lastTurn, from);
    }
  }

  lemma AnswerKeeps(s: State, calls: seq<ToolCall>, lastTurn: bool, from: nat)
    requires Open(s, from)
    ensures var (t, outcome) := Answer(s, calls, lastTurn);
            && WithinSubmits(t, from)
            && (outcome.None? ==> Open(t, from))
            && (outcome.Some? && outcome.value.Finished? && !outcome.value.submission.skip ==> AcceptedNow(t, from))
  {
    hide FixSubmits, FailedChecks, LastCheck, Since, AfterCalls;
    var p := Progress(s, None, 0, false, None);
    CallsKeep(p, calls, 0, lastTurn, from);
  }

  lemma {:induction false} TurnsKeep(s: State, w: World, from: nat)
    requires Open(s, from)
    ensures var (t, outcome) := RunTurns(s, w);
            && WithinSubmits(t, from)
            && (outcome.Finished? && !outcome.submission.skip ==> AcceptedNow(t, from))
    decreases MAX_TURNS - s.turns
  {
    hide FixSubmits, FailedChecks, LastCheck, Since, Answer;
    if s.turns < MAX_TURNS && w.requested(s.turns).Turn? {
      var u := s.(turns := s.turns + 1);
      var calls, lastTurn := w.requested(s.turns).calls, w.nearLimit(s.turns);
      AnswerKeeps(u, calls, lastTurn, from);
      TurnsStay(u, calls, lastTurn);
      var (t, outcome) := Answer(u, calls, lastTurn);
      if outcome.None? && !lastTurn { TurnsKeep(t, w, from); }
    }
  }

  /** Every round, whatever came before it and whatever the model, the tools and the checker do:
      a submitted fix is the workspace as it is now, it passed its check in this round, and no
      tool ran after its acceptance; the missing-check error cannot happen; at most
      four fixes are submitted. */
  lemma EveryRoundIsSound(s: State, digest: nat, w: World)
    ensures var start := NewRound(s, digest);
            var (t, outcome) := Round(start, w);
            && outcome != StateError
            && |s.log| <= |t.log| && FixSubmits(Since(t.log, |s.log|)) <= MAX_FIX_SUBMITS
            && FailedChecks(Since(t.log, |s.log|)) <= MAX_FIX_SUBMITS - 1
            && (outcome.SubmittedFix? ==>
                  && outcome.check.passed && outcome.check.digest == t.digest
                  && Checked(outcome.check) in Since(t.log, |s.log|) && LastCheck(Since(t.log, |s.log|)) == Some(outcome.check)
                  && t.log[|t.log| - 1] == Accepted(outcome.check))
  {
    var start := NewRound(s, digest);
    assert Since(start.log, |s.log|) == [];
    TurnsKeep(start, w, |s.log|);
    LastCheckIsIn(Since(Round(start, w).0.log, |s.log|));
    hide RunTurns, FixSubmits, FailedChecks, LastCheck;
  }

  /** The reply to a submit, told from the round so far: the diff is confirmed when the last check
      passed it. A confirmed diff is accepted with a good text, an unconfirmed one is checked while
      submits are left, and accepted at once only on the last turn. */
  lemma RepliesExactly(s: State, from: nat, submission: Submission, v: Verdict, lastTurn: bool)
    requires Open(s, from)
    ensures var (t, reply) := OnSubmit(s, submission, v, lastTurn);
            var (log, report) := (Since(s.log, from), CheckReport(v.passes, s.digest));
            var (turn, confirmed) := (FixSubmits(log) + 1, LastCheck(log) == Some(CheckReport(true, s.digest)));
            var accepted := if confirmed then !v.textProblem else v.passes && lastTurn && turn < 4;
            && (reply.Accept? <==> submission.skip || accepted)
            && (reply.Stop? <==> !submission.skip && !accepted
                                 && (turn == 4 || (turn == 3 && !confirmed && !v.passes)))
            && t.log == s.log + (if submission.skip then [] else
                                   [FixSubmitted] + (if !confirmed && turn < 4 then [Checked(report)] else [])
                                   + (if accepted then [Accepted(CheckReport(true, s.digest))] else []))
            && (accepted && !submission.skip ==> t.accepted == Some(CheckReport(true, s.digest)))
            && t.digest == s.digest
  {
    hide FixSubmits, FailedChecks, LastCheck, Since;
    if !submission.skip {
      var submitted, report := s.log + [FixSubmitted], CheckReport(v.passes, s.digest);
      assert submitted + [Checked(report)] == s.log + ([FixSubmitted] + [Checked(report)]);
      assert submitted + [Checked(report)] + [Accepted(report)] == s.log + ([FixSubmitted] + [Checked(report)] + [Accepted(report)]);
      var confirmed := Accepted(CheckReport(true, s.digest));
      assert submitted + [confirmed] == s.log + ([FixSubmitted] + [] + [confirmed]);
      assert submitted == s.log + ([FixSubmitted] + [] + []);
      assert [FixSubmitted] + [Checked(report)] + [] == [FixSubmitted] + [Checked(report)];
    }
  }

  /** The round stopped before it asked for another turn, or could not get one. */
  predicate StoppedAsking(t: State, w: World, outcome: Outcome) {
    if t.turns >= 100 then outcome == DidNotFinish(Turns)
    else if w.nearLimit(t.turns) && w.tooLong(t.turns) then outcome == DidNotFinish(Context)
    else
      match w.requested(t.turns)
      case Refused(true) => outcome == DidNotFinish(Time)
      case Refused(false) => outcome == DidNotFinish(Budget)
      case Failed => outcome == LoopFailure(false)
      case Turn(_) => false
  }

  /** The answer to turn `n` ended the round, or left it without an outcome on its last turn. */
  ghost predicate EndedInTurn(n: nat, t: State, w: World, outcome: Outcome) {
    && n < 100 && t.turns == n + 1 && !(w.nearLimit(n) && w.tooLong(n)) && w.requested(n).Turn?
    && exists u: State, ended: Option<Outcome> ::
         && u.turns == n + 1 && Answer(u, w.requested(n).calls, w.nearLimit(n)) == (t, ended)
         && (ended == Some(outcome) || (ended.None? && w.nearLimit(n) && outcome == DidNotFinish(Context)))
  }

  /** How a round ends: at its hundredth turn, for want of room, time, money or a provider before a
      turn, or in the answer to its last turn. */
  lemma {:induction false} RoundEnds(s: State, w: World)
    requires s.turns <= MAX_TURNS
    ensures var (t, outcome) := RunTurns(s, w);
            && s.turns <= t.turns <= 100
            && (StoppedAsking(t, w, outcome) || (s.turns < t.turns && EndedInTurn(t.turns - 1, t, w, outcome)))
    decreases MAX_TURNS - s.turns
  {
    hide Answer;
    var lastTurn := w.nearLimit(s.turns);
    if s.turns < MAX_TURNS && !(lastTurn && w.tooLong(s.turns)) && w.requested(s.turns).Turn? {
      var u, calls := s.(turns := s.turns + 1), w.requested(s.turns).calls;
      TurnsStay(u, calls, lastTurn);
      var (t, outcome) := Answer(u, calls, lastTurn);
      if outcome.None? && !lastTurn { RoundEnds(t, w); }
    }
  }

  /** While the round goes on, at most two failed checks have gone back to the agent. */
  lemma FailedChecksGoBackTwice(s: State, from: nat, submission: Submission, v: Verdict, lastTurn: bool)
    requires Open(s, from)
    ensures OnSubmit(s, submission, v, lastTurn).1.Continue? ==> FailedChecks(Since(OnSubmit(s, submission, v, lastTurn).0.log, from)) <= 2
  {
    SubmitKeeps(s, submission, v, lastTurn, from);
    hide OnSubmit, FailedChecks, FixSubmits, LastCheck, Since;
  }

  /** The round accepts the workspace as it is, if every check of it passes from now on. */
  predicate Acceptable(s: State, submission: Submission) {
    var good := Verdict(true, false);
    var (t, first) := OnSubmit(s, submission, good, false);
    first.Accept? || (first.Continue? && OnSubmit(t, submission, good, false).1.Accept?)
  }

  /** Two submits are enough for any diff, and one for the diff that passed; nothing less is. */
  lemma AcceptableExactly(s: State, from: nat, submission: Submission)
    requires Open(s, from) && !submission.skip
    ensures Acceptable(s, submission) <==>
            s.submits + 2 <= MAX_FIX_SUBMITS || (s.passed.Some? && s.passed.value.digest == s.digest)
  {}

  /** Every "continue" reply leaves enough submits for the round to be accepted: to fix, check and
      confirm when nothing has passed, and to confirm what has. */
  lemma ContinueLeavesEnough(s: State, from: nat, submission: Submission, v: Verdict, lastTurn: bool, next: Submission)
    requires Open(s, from) && !next.skip && OnSubmit(s, submission, v, lastTurn).1.Continue?
    ensures Acceptable(OnSubmit(s, submission, v, lastTurn).0, next)
  {
    SubmitKeeps(s, submission, v, lastTurn, from);
    AcceptableExactly(OnSubmit(s, submission, v, lastTurn).0, from, next);
    hide Acceptable, FixSubmits, LastCheck, Since;
  }

  // ---------------------------------------------------------------- the classes' methods

  class Solver {
    var turns: nat
    var nudges: nat
    var malformedTurns: nat
    var failingCommand: Option<string>
    var failuresInARow: nat
    var submits: nat
    var passed: Option<CheckReport>
    var accepted: Option<CheckReport>
    /** The digest of the workspace's current diff. */
    var digest: nat
    /** Everything that happened so far. */
    var log: seq<Event>

    function Now(): State
      reads this
    {
      State(turns, nudges, malformedTurns, failingCommand, failuresInARow, submits, passed, accepted, digest, log)
    }

    constructor (digest: nat)
      ensures Now() == State(0, 0, 0, None, 0, 0, None, None, digest, [])
    {
      turns, nudges, malformedTurns, failingCommand, failuresInARow := 0, 0, 0, None, 0;
      submits, passed, accepted, log := 0, None, None, [];
      this.digest := digest;
    }

    method OnSubmitted(submission: Submission, v: Verdict, lastTurn: bool) returns (reply: Reply)
      modifies this
      ensures (Now(), reply) == OnSubmit(old(Now()), submission, v, lastTurn)
    {
      if submission.skip { return Accept; }
      submits := submits + 1;
      log := log + [FixSubmitted];
      var left := MAX_FIX_SUBMITS - submits;
      if passed.Some? && digest == passed.value.digest {
        if !v.textProblem {
          accepted := passed;
          log := log + [Accepted(passed.value)];
          return Accept;
        }
        return if left == 0 then Stop else Continue;
      }
      if left == 0 { return Stop; }
      var report := CheckReport(v.passes, digest);
      log := log + [Checked(report)];
      passed := if report.passed then Some(report) else None;
      if report.passed && lastTurn {
        accepted := Some(report);
        log := log + [Accepted(report)];
        return Accept;
      }
      if report.passed { return Continue; }
      return if left < 2 then Stop else Continue;
    }

    method EndFailureStreak()
      modifies this
      ensures Now() == EndStreak(old(Now()))
    {
      failingCommand, failuresInARow := None, 0;
    }

    method AfterToolCall(outOfTime: bool, runs: seq<CommandRun>) returns (outcome: Option<Outcome>)
      modifies this
      ensures (Now(), outcome) == AfterTool(old(Now()), outOfTime, runs)
    {
      if outOfTime { return Some(DidNotFinish(Time)); }
      if runs == [] { EndFailureStreak(); }
      ghost var start := Now();
      for k := 0 to |runs|
        invariant AfterRuns(start, runs, 0) == AfterRuns(Now(), runs, k)
      {
        var run := runs[k];
        if run.passed {
          EndFailureStreak();
        } else if Some(run.command) == failingCommand {
          failuresInARow := failuresInARow + 1;
        } else {
          failingCommand, failuresInARow := Some(run.command), 1;
        }
        if failuresInARow >= MAX_REPEATED_FAILURES { return Some(DidNotFinish(RepeatedFailure)); }
      }
      return None;
    }

    method AnswerTurn(calls: seq<ToolCall>, lastTurn: bool) returns (outcome: Option<Outcome>)
      modifies this
      ensures (Now(), outcome) == Answer(old(Now()), calls, lastTurn)
    {
      hide AfterTool, OnSubmit;
      if calls == [] {
        if lastTurn { return None; }
        if nudges >= MAX_NUDGES { return Some(DidNotFinish(NoToolCall)); }
        nudges := nudges + 1;
        return None;
      }
      outcome := None;
      var invalid: nat := 0;
      var submitted := false;
      ghost var start := Progress(Now(), None, 0, false, None);
      for k := 0 to |calls|
        invariant AfterCalls(start, calls, 0, lastTurn)
                  == AfterCalls(Progress(Now(), outcome, invalid, submitted, None), calls, k, lastTurn)
      {
        ghost var p := Progress(Now(), outcome, invalid, submitted, None);
        var call := calls[k];
        if outcome.Some? {
          // Refused: an earlier call ended the round.
        } else if call.token {
          EndFailureStreak();
          invalid := invalid + 1;
        } else {
          match call.request {
            case Submit(submission, v) =>
              if submitted {
                invalid := invalid + 1;
              } else {
                EndFailureStreak();
                submitted := true;
                if submission.None? {
                  invalid := invalid + 1;
                } else {
                  var reply := OnSubmitted(submission.value, v, lastTurn);
                  if reply.Accept? {
                    outcome := Some(Finished(submission.value));
                  } else if reply.Stop? {
                    outcome := Some(DidNotFinish(SubmitLimit));
                  }
                }
              }
            case Tool(effect) =>
              if !effect.Ran? {
                FailureEnds(p, calls, k, lastTurn);
                return Some(LoopFailure(effect.SandboxFailed?));
              }
              digest := effect.digest;
              log := log + [ToolRan];
              if effect.invalid { invalid := invalid + 1; }
              outcome := AfterToolCall(effect.outOfTime, effect.commands);
          }
        }
        assert AfterCall(p, call, lastTurn) == Progress(Now(), outcome, invalid, submitted, None);
      }
      malformedTurns := if invalid == |calls| then malformedTurns + 1 else 0;
      if outcome.None? && malformedTurns >= MAX_MALFORMED_TURNS { outcome := Some(DidNotFinish(Malformed)); }
    }

    lemma FailureEnds(p: Progress, calls: seq<ToolCall>, k: nat, lastTurn: bool)
      requires k < |calls| && p.outcome.None? && p.failed.None? && !calls[k].token
      requires calls[k].request.Tool? && !calls[k].request.effect.Ran?
      ensures AfterCalls(p, calls, k, lastTurn) == p.(failed := Some(calls[k].request.effect.SandboxFailed?))
    {}

    method Run(w: World) returns (outcome: SolverOutcome)
      modifies this
      ensures (Now(), outcome) == Round(old(Now()), w)
    {
      hide Answer;
      ghost var start := Now();
      while true
        invariant RunTurns(start, w) == RunTurns(Now(), w)
        decreases MAX_TURNS - turns
      {
        if turns >= MAX_TURNS { return SolverResult(Now(), DidNotFinish(Turns)); }
        var lastTurn := w.nearLimit(turns);
        if lastTurn && w.tooLong(turns) { return SolverResult(Now(), DidNotFinish(Context)); }
        var requested := w.requested(turns);
        if requested.Refused? { return SolverResult(Now(), DidNotFinish(Limit(requested.time))); }
        if requested.Failed? { return SolverResult(Now(), LoopFailure(false)); }
        turns := turns + 1;
        TurnsStay(Now(), requested.calls, lastTurn);
        var answered := AnswerTurn(requested.calls, lastTurn);
        if answered.Some? { return SolverResult(Now(), answered.value); }
        if lastTurn { return SolverResult(Now(), DidNotFinish(Context)); }
      }
    }

    /** `address_blockers`; `current` is the workspace's digest when the round starts. */
    method AddressBlockers(current: nat, w: World) returns (outcome: SolverOutcome)
      modifies this
      ensures (Now(), outcome) == Round(NewRound(old(Now()), current), w)
    {
      digest := current;
      submits, passed, accepted := 0, None, None;
      outcome := Run(w);
    }
  }
}
