/** When a transcript ends because one command kept failing. */
module FailureStreaks {
  import opened Results
  import opened Seqs
  import opened AgentLoop

  /** What the calls of a transcript leave behind for the count: a command that ran, or something
      that came between commands. */
  datatype Mark = Command(run: CommandRun) | Between

  predicate Fails(m: Mark) {
    m.Command? && !m.run.passed
  }

  /** How often the last command failed without anything else coming between. */
  function Streak(history: seq<Mark>): nat {
    if history == [] || !Fails(history[|history| - 1]) then 0
    else
      var n := |history| - 1;
      1 + if n > 0 && Fails(history[n - 1]) && history[n - 1].run.command == history[n].run.command then Streak(history[..n]) else 0
  }

  /** Somewhere after the first `from` marks, one command had failed three times in a row. */
  predicate ThreeInARow(history: seq<Mark>, from: nat) {
    exists j | from < j <= |history| :: Streak(history[..j]) >= MAX_REPEATED_FAILURES
  }

  // ---------------------------------------------------------------- what a transcript leaves behind

  function Commands(runs: seq<CommandRun>): (r: seq<Mark>)
    ensures |r| == |runs|
  {
    seq(|runs|, k requires 0 <= k < |runs| => Command(runs[k]))
  }

  /** Calls that are refused unread, or only answered, come between commands; so do tools that run
      none. A second submit in a turn, a call after the end and a failed tool leave nothing. */
  function CallMarks(p: Progress, call: ToolCall): seq<Mark> {
    if p.outcome.Some? then []
    else if call.token then [Between]
    else
      match call.request
      case Submit(_, _) => if p.submitted then [] else [Between]
      case Tool(effect) =>
        if !effect.Ran? || effect.outOfTime then []
        else if effect.commands == [] then [Between]
        else Commands(effect.commands)
  }

  function CallsMarks(p: Progress, calls: seq<ToolCall>, k: nat, lastTurn: bool): seq<Mark>
    requires k <= |calls|
    decreases |calls| - k
  {
    if k == |calls| || p.failed.Some? then []
    else CallMarks(p, calls[k]) + CallsMarks(AfterCall(p, calls[k], lastTurn), calls, k + 1, lastTurn)
  }

  function TurnMarks(s: State, calls: seq<ToolCall>, lastTurn: bool): seq<Mark> {
    CallsMarks(Progress(s, None, 0, false, None), calls, 0, lastTurn)
  }

  /** What the turns of a round leave behind. */
  function RoundMarks(s: State, w: World): seq<Mark>
    decreases MAX_TURNS - s.turns
  {
    var lastTurn := w.nearLimit(s.turns);
    if s.turns >= MAX_TURNS || (lastTurn && w.tooLong(s.turns)) || !w.requested(s.turns).Turn? then []
    else
      var u, calls := s.(turns := s.turns + 1), w.requested(s.turns).calls;
      TurnsStay(u, calls, lastTurn);
      var (t, outcome) := Answer(u, calls, lastTurn);
      TurnMarks(u, calls, lastTurn) + if outcome.Some? || lastTurn then [] else RoundMarks(t, w)
  }

  // ---------------------------------------------------------------- the two fields count the streak

  predicate Counts(s: State, history: seq<Mark>) {
    && s.failuresInARow == Streak(history)
    && s.failingCommand == if Streak(history) == 0 then None else Some(history[|history| - 1].run.command)
  }

  lemma RunKeepsCount(s: State, history: seq<Mark>, run: CommandRun)
    requires Counts(s, history)
    ensures Counts(AfterRun(s, run), history + [Command(run)])
  {
    assert (history + [Command(run)])[..|history|] == history;
    if history != [] && Fails(history[|history| - 1]) { assert Streak(history) > 0; }
  }

  lemma BetweenKeepsCount(s: State, history: seq<Mark>)
    ensures Counts(EndStreak(s), history + [Between])
  {}

  /** What a step of the loop has to say: `ended` for repeated failures exactly when three in a row
      came after the marks so far, else the fields count on. */
  ghost predicate Told(ended: bool, s: State, history: seq<Mark>, more: seq<Mark>) {
    && (ended <==> ThreeInARow(history + more, |history|))
    && (!ended ==> Counts(s, history + more))
  }

  lemma NothingTold(s: State, history: seq<Mark>)
    requires Counts(s, history)
    ensures Told(false, s, history, [])
  {
    assert history + [] == history;
  }

  lemma OneTold(s: State, history: seq<Mark>, m: Mark)
    requires Counts(s, history + [m])
    ensures Told(s.failuresInARow >= MAX_REPEATED_FAILURES, s, history, [m])
  {
    hide Streak;
    var all := history + [m];
    assert all[..|all|] == all;
    forall j | |history| < j <= |all|
      ensures all[..j] == all
    {}
  }

  /** What comes after three in a row is not looked at. */
  lemma EndTold(s: State, history: seq<Mark>, a: seq<Mark>, b: seq<Mark>)
    requires Told(true, s, history, a)
    ensures Told(true, s, history, a + b)
  {
    hide Streak;
    var j :| |history| < j <= |history + a| && Streak((history + a)[..j]) >= MAX_REPEATED_FAILURES;
    assert (history + (a + b))[..j] == (history + a)[..j];
  }

  lemma MoreTold(s: State, history: seq<Mark>, a: seq<Mark>, ended: bool, t: State, b: seq<Mark>)
    requires Told(false, s, history, a) && Told(ended, t, history + a, b)
    ensures Told(ended, t, history, a + b)
  {
    hide Streak;
    var all := history + (a + b);
    assert all == (history + a) + b;
    forall j | |history| < j <= |history + a|
      ensures Streak(all[..j]) < MAX_REPEATED_FAILURES
    {
      assert all[..j] == (history + a)[..j];
    }
  }

  predicate Repeated(outcome: Option<Outcome>) {
    outcome == Some(DidNotFinish(RepeatedFailure))
  }

  lemma {:induction false} RunsTold(s: State, history: seq<Mark>, runs: seq<CommandRun>, k: nat)
    requires k <= |runs| && Counts(s, history)
    ensures var (t, outcome) := AfterRuns(s, runs, k);
            && Told(Repeated(outcome), t, history, Commands(runs)[k..])
            && (outcome.Some? ==> Repeated(outcome))
    decreases |runs| - k
  {
    hide Told, Counts, AfterRun;
    if k == |runs| {
      NothingTold(s, history);
    } else {
      var m, t := Command(runs[k]), AfterRun(s, runs[k]);
      RunKeepsCount(s, history, runs[k]);
      OneTold(t, history, m);
      assert Commands(runs)[k..] == [m] + Commands(runs)[k + 1..];
      if t.failuresInARow >= MAX_REPEATED_FAILURES {
        EndTold(t, history, [m], Commands(runs)[k + 1..]);
      } else {
        RunsTold(t, history + [m], runs, k + 1);
        var (u, outcome) := AfterRuns(t, runs, k + 1);
        MoreTold(t, history, [m], Repeated(outcome), u, Commands(runs)[k + 1..]);
      }
    }
  }

  lemma BetweenTold(s: State, t: State, history: seq<Mark>)
    requires t.failingCommand.None? && t.failuresInARow == 0
    ensures Told(false, t, history, [Between])
  {
    BetweenKeepsCount(t, history);
    assert EndStreak(t) == t;
    OneTold(t, history, Between);
  }

  lemma SameFieldsCount(s: State, t: State, history: seq<Mark>)
    requires Counts(s, history) && t.failingCommand == s.failingCommand && t.failuresInARow == s.failuresInARow
    ensures Counts(t, history)
  {}

  lemma CallTold(p: Progress, call: ToolCall, lastTurn: bool, history: seq<Mark>)
    requires p.outcome.None? && p.failed.None? && Counts(p.state, history)
    ensures var q := AfterCall(p, call, lastTurn);
            Told(Repeated(q.outcome), q.state, history, CallMarks(p, call))
  {
    hide Told, Counts, Streak, AfterRuns;
    var q := AfterCall(p, call, lastTurn);
    NothingTold(p.state, history);
    if call.token {
      BetweenTold(p.state, q.state, history);
    } else {
      match call.request
      case Submit(submission, v) =>
        if !p.submitted { BetweenTold(p.state, q.state, history); }
      case Tool(effect) =>
        if effect.Ran? {
          var t := Logged(p.state.(digest := effect.digest), ToolRan);
          SameFieldsCount(p.state, t, history);
          if effect.outOfTime {
            NothingTold(t, history);
          } else if effect.commands == [] {
            BetweenTold(p.state, EndStreak(t), history);
            assert AfterRuns(EndStreak(t), [], 0) == (EndStreak(t), None) by { NoRuns(EndStreak(t)); }
          } else {
            RunsTold(t, history, effect.commands, 0);
            assert Commands(effect.commands)[0..] == Commands(effect.commands);
          }
        }
    }
  }

  lemma NoRuns(s: State)
    ensures AfterRuns(s, [], 0) == (s, None)
  {}

  lemma {:induction false} CallsTold(p: Progress, calls: seq<ToolCall>, k: nat, lastTurn: bool, history: seq<Mark>)
    requires k <= |calls| && p.outcome.None? && Counts(p.state, history)
    ensures var q := AfterCalls(p, calls, k, lastTurn);
            Told(q.failed.None? && Repeated(q.outcome), q.state, history, CallsMarks(p, calls, k, lastTurn))
    ensures var q := AfterCalls(p, calls, k, lastTurn); q.failed.Some? ==> q.outcome.None?
    decreases |calls| - k
  {
    hide Told, Counts, AfterCall, CallMarks;
    if k == |calls| || p.failed.Some? {
      NothingTold(p.state, history);
    } else {
      var next := AfterCall(p, calls[k], lastTurn);
      CallTold(p, calls[k], lastTurn, history);
      OneOrTheOther(p, calls[k], lastTurn);
      var marks := CallMarks(p, calls[k]);
      if next.outcome.Some? {
        EndedCallsStay(next, calls, k + 1, lastTurn);
        assert marks + [] == marks;
      } else {
        CountsAfter(next.state, history, marks);
        CallsTold(next, calls, k + 1, lastTurn, history + marks);
        var q := AfterCalls(next, calls, k + 1, lastTurn);
        MoreTold(next.state, history, marks, q.failed.None? && Repeated(q.outcome), q.state, CallsMarks(next, calls, k + 1, lastTurn));
      }
    }
  }

  lemma CountsAfter(s: State, history: seq<Mark>, marks: seq<Mark>)
    requires Told(false, s, history, marks)
    ensures Counts(s, history + marks)
  {}

  lemma OneOrTheOther(p: Progress, call: ToolCall, lastTurn: bool)
    requires p.outcome.None? && p.failed.None?
    ensures var q := AfterCall(p, call, lastTurn); q.outcome.Some? ==> q.failed.None?
  {
    hide OnSubmit, AfterTool;
  }

  /** Once the transcript has ended, the calls left of the turn change nothing. */
  lemma {:induction false} EndedCallsStay(p: Progress, calls: seq<ToolCall>, k: nat, lastTurn: bool)
    requires k <= |calls| && p.outcome.Some?
    ensures AfterCalls(p, calls, k, lastTurn) == p && CallsMarks(p, calls, k, lastTurn) == []
    decreases |calls| - k
  {
    if k < |calls| && p.failed.None? { EndedCallsStay(p, calls, k + 1, lastTurn); }
  }

  lemma TurnTold(s: State, calls: seq<ToolCall>, lastTurn: bool, history: seq<Mark>)
    requires Counts(s, history)
    ensures var (t, outcome) := Answer(s, calls, lastTurn);
            Told(Repeated(outcome), t, history, TurnMarks(s, calls, lastTurn))
  {
    hide Counts, AfterCalls, CallsMarks;
    var p := Progress(s, None, 0, false, None);
    CallsTold(p, calls, 0, lastTurn, history);
    var (t, outcome) := Answer(s, calls, lastTurn);
    if calls == [] {
      NoCalls(p, lastTurn);
      SameFieldsTold(s, t, history, []);
    } else {
      SameFieldsTold(AfterCalls(p, calls, 0, lastTurn).state, t, history, CallsMarks(p, calls, 0, lastTurn));
    }
  }

  lemma NoCalls(p: Progress, lastTurn: bool)
    ensures AfterCalls(p, [], 0, lastTurn) == p && CallsMarks(p, [], 0, lastTurn) == []
  {}

  lemma SameFieldsTold(s: State, t: State, history: seq<Mark>, marks: seq<Mark>)
    requires t.failingCommand == s.failingCommand && t.failuresInARow == s.failuresInARow
    ensures forall ended: bool :: Told(ended, s, history, marks) ==> Told(ended, t, history, marks)
  {}

  /** The turns of a round end for repeated failures exactly when, somewhere in what they ran, one
      command failed three times in a row; what came before the round counts too. */
  lemma {:induction false} RoundTold(s: State, w: World, history: seq<Mark>)
    requires Counts(s, history)
    ensures var (t, outcome) := RunTurns(s, w);
            Told(outcome == DidNotFinish(RepeatedFailure), t, history, RoundMarks(s, w))
    decreases MAX_TURNS - s.turns
  {
    hide Told, Counts, Answer, TurnMarks;
    NothingTold(s, history);
    var lastTurn := w.nearLimit(s.turns);
    if s.turns < MAX_TURNS && !(lastTurn && w.tooLong(s.turns)) && w.requested(s.turns).Turn? {
      var u, calls := s.(turns := s.turns + 1), w.requested(s.turns).calls;
      SameFieldsCount(s, u, history);
      TurnTold(u, calls, lastTurn, history);
      TurnsStay(u, calls, lastTurn);
      var (t, outcome) := Answer(u, calls, lastTurn);
      var marks := TurnMarks(u, calls, lastTurn);
      if outcome.Some? || lastTurn {
        assert marks + [] == marks;
      } else {
        CountsAfter(t, history, marks);
        RoundTold(t, w, history + marks);
        var (v, end) := RunTurns(t, w);
        MoreTold(t, history, marks, end == DidNotFinish(RepeatedFailure), v, RoundMarks(t, w));
      }
    }
  }

  // ---------------------------------------------------------------- the whole transcript

  /** The rounds of a transcript: the first, and one more after each fix that the critic sends back,
      with the workspace's digest as it is then. */
  datatype NextRound = NextRound(digest: nat, w: World)

  function Rounds(s: State, w: World, more: seq<NextRound>): (State, SolverOutcome)
    decreases |more|
  {
    var (t, outcome) := Round(s, w);
    if more == [] || !outcome.SubmittedFix? then (t, outcome)
    else Rounds(NewRound(t, more[0].digest), more[0].w, more[1..])
  }

  /** All that the transcript left behind. */
  function TranscriptMarks(s: State, w: World, more: seq<NextRound>): seq<Mark>
    decreases |more|
  {
    var (t, outcome) := Round(s, w);
    RoundMarks(s, w)
    + if more == [] || !outcome.SubmittedFix? then [] else TranscriptMarks(NewRound(t, more[0].digest), more[0].w, more[1..])
  }

  lemma {:induction false} RoundsTold(s: State, w: World, more: seq<NextRound>, history: seq<Mark>)
    requires Counts(s, history)
    ensures var (t, outcome) := Rounds(s, w, more);
            Told(outcome == Ended(DidNotFinish(RepeatedFailure)), t, history, TranscriptMarks(s, w, more))
    decreases |more|
  {
    hide Told, Counts, RunTurns, RoundMarks;
    RoundTold(s, w, history);
    var (t, outcome) := Round(s, w);
    var marks := RoundMarks(s, w);
    if more == [] || !outcome.SubmittedFix? {
      assert marks + [] == marks;
    } else {
      var next, rest := NewRound(t, more[0].digest), more[1..];
      CountsAfter(t, history, marks);
      SameFieldsCount(t, next, history + marks);
      RoundsTold(next, more[0].w, rest, history + marks);
      var (u, end) := Rounds(next, more[0].w, rest);
      MoreTold(t, history, marks, end == Ended(DidNotFinish(RepeatedFailure)), u, TranscriptMarks(next, more[0].w, rest));
    }
  }

  /** A transcript ends for repeated failures exactly when, over all its turns and rounds, one
      command failed three times in a row with nothing else in between. */
  lemma RepeatedFailureExactly(s: State, w: World, more: seq<NextRound>)
    requires s.failuresInARow == 0 && s.failingCommand.None?
    ensures Rounds(s, w, more).1 == Ended(DidNotFinish(RepeatedFailure)) <==>
            ThreeInARow(TranscriptMarks(s, w, more), 0)
  {
    hide TranscriptMarks, Rounds;
    RoundsTold(s, w, more, []);
    assert [] + TranscriptMarks(s, w, more) == TranscriptMarks(s, w, more);
  }
}
