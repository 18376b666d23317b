/** When a transcript ends because its turns had no tool call, or only invalid ones. */
module TurnCounts {
  import opened Results
  import opened AgentLoop
  import opened FailureStreaks

  /** What a turn was: without tool calls, with invalid ones only, or anything else. */
  datatype TurnMark = Silent | Spoilt | Useful

  function Silents(turns: seq<TurnMark>): nat {
    if turns == [] then 0 else Silents(turns[..|turns| - 1]) + if turns[|turns| - 1].Silent? then 1 else 0
  }

  /** How many of the last turns with tool calls had invalid ones only, one after the other. */
  function SpoiltInARow(turns: seq<TurnMark>): nat {
    if turns == [] || turns[|turns| - 1].Useful? then 0
    else SpoiltInARow(turns[..|turns| - 1]) + if turns[|turns| - 1].Spoilt? then 1 else 0
  }

  // ---------------------------------------------------------------- the calls of a turn

  /** A call before the `k`th of the turn was a submit that was read. */
  predicate SubmittedBefore(calls: seq<ToolCall>, k: nat)
    requires k <= |calls|
  {
    exists j | 0 <= j < k :: !calls[j].token && calls[j].request.Submit?
  }

  /** A call with a credential in it, a submit that says nothing or is not the first, or a tool that
      finds its arguments invalid. */
  predicate Invalid(calls: seq<ToolCall>, k: nat)
    requires k < |calls|
  {
    || calls[k].token
    || match calls[k].request
       case Submit(submission, _) => submission.None? || SubmittedBefore(calls, k)
       case Tool(effect) => effect.Ran? && effect.invalid
  }

  predicate AllInvalid(calls: seq<ToolCall>, from: nat)
    requires from <= |calls|
  {
    forall k | from <= k < |calls| :: Invalid(calls, k)
  }

  /** Calls end a transcript with a submission, or for what is not a count of turns. */
  predicate CallsEnd(outcome: Option<Outcome>) {
    outcome.Some? ==> outcome.value.Finished? || outcome.value in {DidNotFinish(SubmitLimit), DidNotFinish(Time), DidNotFinish(RepeatedFailure)}
  }

  lemma CallCounted(p: Progress, calls: seq<ToolCall>, k: nat, lastTurn: bool)
    requires k < |calls| && p.outcome.None? && p.failed.None? && (p.submitted <==> SubmittedBefore(calls, k))
    ensures var q := AfterCall(p, calls[k], lastTurn);
            && CallsEnd(q.outcome) && (q.submitted <==> SubmittedBefore(calls, k + 1))
            && p.invalid <= q.invalid <= p.invalid + 1
            && (q.failed.None? ==> q.invalid == p.invalid + if Invalid(calls, k) then 1 else 0)
            && (q.failed.Some? ==> q.invalid == p.invalid)
            && (q.outcome.Some? && q.outcome.value.Finished? ==> !Invalid(calls, k))
            && (q.outcome.Some? ==> q.failed.None?)
  {
    hide OnSubmit;
    var call := calls[k];
    if !call.token && call.request.Tool? && call.request.effect.Ran? {
      var e := call.request.effect;
      var t := Logged(p.state.(digest := e.digest), ToolRan);
      RunsEnd(if e.commands == [] then EndStreak(t) else t, e.commands, 0);
      hide AfterRuns;
    }
  }

  lemma {:induction false} RunsEnd(s: State, runs: seq<CommandRun>, k: nat)
    requires k <= |runs|
    ensures var outcome := AfterRuns(s, runs, k).1; outcome.None? || outcome == Some(DidNotFinish(RepeatedFailure))
    decreases |runs| - k
  {
    if k < |runs| { RunsEnd(AfterRun(s, runs[k]), runs, k + 1); }
  }

  lemma {:induction false} CallsCounted(p: Progress, calls: seq<ToolCall>, k: nat, lastTurn: bool)
    requires k <= |calls| && p.outcome.None? && p.failed.None? && (p.submitted <==> SubmittedBefore(calls, k))
    ensures var q := AfterCalls(p, calls, k, lastTurn);
            && CallsEnd(q.outcome) && p.invalid <= q.invalid <= p.invalid + |calls| - k
            && (q.outcome.None? && q.failed.None? ==> (q.invalid == p.invalid + |calls| - k <==> AllInvalid(calls, k)))
            && (q.outcome.Some? && q.outcome.value.Finished? ==> q.invalid < p.invalid + |calls| - k)
            && (q.outcome.Some? ==> q.failed.None?)
    decreases |calls| - k
  {
    hide AfterCall, Invalid, SubmittedBefore;
    if k < |calls| {
      CallCounted(p, calls, k, lastTurn);
      var next := AfterCall(p, calls[k], lastTurn);
      if next.outcome.Some? {
        EndedCallsStay(next, calls, k + 1, lastTurn);
      } else if next.failed.None? {
        CallsCounted(next, calls, k + 1, lastTurn);
      }
    }
  }

  // ---------------------------------------------------------------- one turn

  /** The mark of a turn; a turn without tool calls that is the last one has none. */
  function TurnMarkOf(s: State, calls: seq<ToolCall>, lastTurn: bool): seq<TurnMark> {
    if calls == [] then if lastTurn then [] else [Silent]
    else
      var q := AfterCalls(Progress(s, None, 0, false, None), calls, 0, lastTurn);
      [if AllInvalid(calls, 0) && q.outcome.None? && q.failed.None? then Spoilt else Useful]
  }

  predicate Counted(s: State, turns: seq<TurnMark>) {
    && s.nudges == Silents(turns) <= MAX_NUDGES
    && s.malformedTurns == SpoiltInARow(turns) < MAX_MALFORMED_TURNS
  }

  /** The two outcomes that count turns. */
  predicate EndsFor(outcome: Option<Outcome>, turns: seq<TurnMark>) {
    && (outcome == Some(DidNotFinish(NoToolCall)) <==> Silents(turns) == 3)
    && (outcome == Some(DidNotFinish(Malformed)) <==> SpoiltInARow(turns) == 3)
  }

  lemma OneMoreTurn(turns: seq<TurnMark>, m: TurnMark)
    ensures Silents(turns + [m]) == Silents(turns) + if m.Silent? then 1 else 0
    ensures SpoiltInARow(turns + [m]) == if m.Useful? then 0 else SpoiltInARow(turns) + if m.Spoilt? then 1 else 0
  {
    assert (turns + [m])[..|turns|] == turns;
  }

  lemma {:induction false} CallsKeepNudges(p: Progress, calls: seq<ToolCall>, k: nat, lastTurn: bool)
    requires k <= |calls|
    ensures var q := AfterCalls(p, calls, k, lastTurn); q.state.nudges == p.state.nudges && q.state.malformedTurns == p.state.malformedTurns
    decreases |calls| - k
  {
    if k < |calls| && p.failed.None? {
      CallKeepsNudges(p, calls[k], lastTurn);
      hide AfterCall;
      CallsKeepNudges(AfterCall(p, calls[k], lastTurn), calls, k + 1, lastTurn);
    }
  }

  lemma CallKeepsNudges(p: Progress, call: ToolCall, lastTurn: bool)
    ensures var q := AfterCall(p, call, lastTurn); q.state.nudges == p.state.nudges && q.state.malformedTurns == p.state.malformedTurns
  {
    if call.request.Tool? && call.request.effect.Ran? {
      var e := call.request.effect;
      var t := Logged(p.state.(digest := e.digest), ToolRan);
      RunsKeepTurns(if e.commands == [] then EndStreak(t) else t, e.commands, 0);
    }
  }

  lemma TurnCounted(s: State, calls: seq<ToolCall>, lastTurn: bool, turns: seq<TurnMark>)
    requires Counted(s, turns)
    ensures var (t, outcome) := Answer(s, calls, lastTurn);
            var all := turns + TurnMarkOf(s, calls, lastTurn);
            EndsFor(outcome, all) && (outcome.None? || outcome.value.Finished? ==> Counted(t, all))
  {
    hide AfterCalls, Silents, SpoiltInARow, AllInvalid;
    var p := Progress(s, None, 0, false, None);
    var (t, outcome) := Answer(s, calls, lastTurn);
    var marks := TurnMarkOf(s, calls, lastTurn);
    if marks == [] { assert turns + marks == turns; } else { OneMoreTurn(turns, marks[0]); }
    if calls != [] {
      CallsCounted(p, calls, 0, lastTurn);
      CallsKeepNudges(p, calls, 0, lastTurn);
    }
  }

  // ---------------------------------------------------------------- the whole transcript

  function RoundTurns(s: State, w: World): seq<TurnMark>
    decreases MAX_TURNS - s.turns
  {
    var lastTurn := w.nearLimit(s.turns);
    if s.turns >= MAX_TURNS || (lastTurn && w.tooLong(s.turns)) || !w.requested(s.turns).Turn? then []
    else
      var u, calls := s.(turns := s.turns + 1), w.requested(s.turns).calls;
      TurnsStay(u, calls, lastTurn);
      var (t, outcome) := Answer(u, calls, lastTurn);
      TurnMarkOf(u, calls, lastTurn) + if outcome.Some? || lastTurn then [] else RoundTurns(t, w)
  }

  lemma Uncounted(s: State, turns: seq<TurnMark>, outcome: Outcome)
    requires Counted(s, turns) && outcome != DidNotFinish(NoToolCall) && outcome != DidNotFinish(Malformed)
    ensures EndsFor(Some(outcome), turns + [])
  {
    assert turns + [] == turns;
  }

  lemma {:induction false} RoundCounted(s: State, w: World, turns: seq<TurnMark>)
    requires Counted(s, turns)
    ensures var (t, outcome) := RunTurns(s, w);
            var all := turns + RoundTurns(s, w);
            EndsFor(Some(outcome), all) && (outcome.Finished? ==> Counted(t, all))
    decreases MAX_TURNS - s.turns
  {
    hide EndsFor, Silents, SpoiltInARow, Answer, TurnMarkOf;
    var lastTurn := w.nearLimit(s.turns);
    if s.turns >= MAX_TURNS || (lastTurn && w.tooLong(s.turns)) || !w.requested(s.turns).Turn? {
      Uncounted(s, turns, RunTurns(s, w).1);
    } else {
      var u, calls := s.(turns := s.turns + 1), w.requested(s.turns).calls;
      TurnCounted(u, calls, lastTurn, turns);
      TurnsStay(u, calls, lastTurn);
      var (t, outcome) := Answer(u, calls, lastTurn);
      var mark := TurnMarkOf(u, calls, lastTurn);
      if outcome.Some? || lastTurn {
        assert mark + [] == mark;
        if outcome.None? {
          assert (turns + mark) + [] == turns + mark;
          Uncounted(t, turns + mark, DidNotFinish(Context));
        }
      } else {
        RoundCounted(t, w, turns + mark);
        assert (turns + mark) + RoundTurns(t, w) == turns + (mark + RoundTurns(t, w));
      }
    }
  }

  /** The turns of all rounds of a transcript. */
  function TranscriptTurns(s: State, w: World, more: seq<NextRound>): seq<TurnMark>
    decreases |more|
  {
    var (t, outcome) := Round(s, w);
    RoundTurns(s, w)
    + if more == [] || !outcome.SubmittedFix? then [] else TranscriptTurns(NewRound(t, more[0].digest), more[0].w, more[1..])
  }

  /** How a transcript ended, when it did not end with a submission. */
  function EndOf(outcome: SolverOutcome): Option<Outcome> {
    if outcome.Ended? then Some(outcome.outcome) else None
  }

  lemma {:induction false} RoundsCounted(s: State, w: World, more: seq<NextRound>, turns: seq<TurnMark>)
    requires Counted(s, turns)
    ensures EndsFor(EndOf(Rounds(s, w, more).1), turns + TranscriptTurns(s, w, more))
    decreases |more|
  {
    hide Silents, SpoiltInARow, RunTurns, RoundTurns;
    RoundCounted(s, w, turns);
    var (t, outcome) := Round(s, w);
    var first := RoundTurns(s, w);
    if more == [] || !outcome.SubmittedFix? {
      assert first + [] == first;
    } else {
      var next, rest := NewRound(t, more[0].digest), more[1..];
      RoundsCounted(next, more[0].w, rest, turns + first);
      assert (turns + first) + TranscriptTurns(next, more[0].w, rest) == turns + (first + TranscriptTurns(next, more[0].w, rest));
    }
  }

  /** Over all turns and rounds, a transcript ends for a missing tool call exactly with the third
      turn that has none, and as malformed exactly when three turns with tool calls, one after the
      other, had invalid ones only. */
  lemma TurnsAreCounted(s: State, w: World, more: seq<NextRound>)
    requires s.nudges == 0 && s.malformedTurns == 0
    ensures var (end, turns) := (Rounds(s, w, more).1, TranscriptTurns(s, w, more));
            && (end == Ended(DidNotFinish(NoToolCall)) <==> Silents(turns) == 3)
            && (end == Ended(DidNotFinish(Malformed)) <==> SpoiltInARow(turns) == 3)
  {
    hide TranscriptTurns, Rounds;
    RoundsCounted(s, w, more, []);
    assert [] + TranscriptTurns(s, w, more) == TranscriptTurns(s, w, more);
  }
}
