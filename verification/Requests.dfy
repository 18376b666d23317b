/** The bounded retry loop of one GitHub request. */
module Requests {
  import opened Results
  import opened Seqs
  import opened Throttle

  const MAX_REQUEST_ATTEMPTS := 4
  const MAX_SINGLE_WAIT := 60.0
  const MAX_TOTAL_WAIT := 180.0
  const SECONDARY_RETRIES := 3
  const SECONDARY_WAIT_BUDGET := 600.0

  /** A header that should hold a number. */
  datatype Header = Absent | Number(value: int) | Junk

  /** What the loop reads of a response; the three patterns are matched on its message. */
  datatype Response = Response(
    status: nat, secondary: bool, suspended: bool, creationBlocked: bool,
    retryAfter: Header, remainingIsZero: bool, reset: Header, json: bool)

  datatype Reply = Lost | UnsafeRedirect | Got(response: Response)

  datatype Failure =
    | TransportFailure | RedirectStopped | AccountSuspended | PublicationBlocked
    | SecondaryLimit | RateLimit | HttpError(status: nat) | InvalidJson | FailedAfterRetries

  datatype Outcome = Json | Nothing | Raised(failure: Failure)

  /** One request, with what the network and the two clocks will say on each attempt. */
  datatype Call = Call(isGet: bool, isSearch: bool, allowNotFound: bool,
                       replies: nat -> Reply, wallClock: nat -> real, monotonic: nat -> real)

  datatype Event = Sent(reply: Reply) | Slept(seconds: real, secondary: bool)

  function Max(a: real, b: real): real {
    if a < b then b else a
  }

  /** `_TRANSIENT_BACKOFF_SECONDS`. */
  function Backoff(attempt: nat): real {
    if attempt <= 1 then 2.0 else if attempt == 2 then 4.0 else 8.0
  }

  /** `_SECONDARY_BACKOFF_SECONDS`. */
  function SecondaryBackoff(limits: nat): real {
    if limits <= 1 then 60.0 else if limits == 2 then 120.0 else 240.0
  }

  function RetryAfter(r: Response): Option<real> {
    match r.retryAfter case Number(n) => Some(Max(1.0, n as real)) case _ => None
  }

  function RateLimitWait(r: Response, attempt: nat, now: real): real {
    if RetryAfter(r).Some? then RetryAfter(r).value
    else if r.reset.Number? && r.remainingIsZero then Max(1.0, r.reset.value as real - now)
    else Backoff(attempt)
  }

  predicate IsRateLimited(r: Response) {
    r.status == 429 || (r.status == 403 && (r.retryAfter != Absent || r.remainingIsZero))
  }

  /** GitHub refused the request before doing anything. */
  predicate Refused(reply: Reply): (refused: bool)
    ensures refused ==> reply.Got?
  {
    reply.Got? && (reply.response.secondary || IsRateLimited(reply.response))
  }

  datatype Step = Retry(wait: real, secondary: bool) | Stop(outcome: Outcome)

  function RetryIfRead(call: Call, attempt: nat, total: real, otherwise: Outcome): Step {
    if call.isGet && attempt < MAX_REQUEST_ATTEMPTS && total + Backoff(attempt) <= MAX_TOTAL_WAIT
    then Retry(Backoff(attempt), false) else Stop(otherwise)
  }

  function Finish(r: Response): Outcome {
    if !(200 <= r.status < 300) then Raised(HttpError(r.status))
    else if r.status == 204 then Nothing
    else if r.json then Json
    else Raised(InvalidJson)
  }

  /** What one turn of the loop does with a reply; `limits` counts this reply's secondary limit. */
  function Decide(call: Call, attempt: nat, total: real, limits: nat, secondaryWait: real, reply: Reply): Step {
    match reply
    case Lost => RetryIfRead(call, attempt, total, Raised(TransportFailure))
    case UnsafeRedirect => Stop(Raised(RedirectStopped))
    case Got(r) =>
      if r.status == 404 && call.allowNotFound && !r.secondary then Stop(Nothing)
      else if r.status == 403 && r.suspended then Stop(Raised(AccountSuspended))
      else if r.secondary && !call.isGet && r.creationBlocked then Stop(Raised(PublicationBlocked))
      else if r.secondary then
        var asked := match RetryAfter(r) case None => 0.0 case Some(s) => s;
        var wait := Max(asked, SecondaryBackoff(limits));
        if attempt < MAX_REQUEST_ATTEMPTS && limits <= SECONDARY_RETRIES && secondaryWait + wait <= SECONDARY_WAIT_BUDGET
        then Retry(wait, true) else Stop(Raised(SecondaryLimit))
      else if IsRateLimited(r) then
        var wait := RateLimitWait(r, attempt, call.wallClock(attempt));
        if attempt < MAX_REQUEST_ATTEMPTS && wait <= MAX_SINGLE_WAIT && total + wait <= MAX_TOTAL_WAIT
        then Retry(wait, false) else Stop(Raised(RateLimit))
      else if r.status in {500, 502, 503, 504} then RetryIfRead(call, attempt, total, Finish(r))
      else Stop(Finish(r))
  }

  function IfSecondary(reply: Reply): nat {
    if reply.Got? && reply.response.secondary then 1 else 0
  }

  function Charge(wait: real, here: bool): real {
    if here then wait else 0.0
  }

  datatype Ending = Ending(outcome: Outcome, events: seq<Event>, secondaryWait: real)

  /** The loop from one attempt on. */
  function Attempts(call: Call, attempt: nat, total: real, limits: nat, secondaryWait: real): Ending
    decreases MAX_REQUEST_ATTEMPTS + 1 - attempt
  {
    if attempt > MAX_REQUEST_ATTEMPTS then Ending(Raised(FailedAfterRetries), [], secondaryWait)
    else
      var reply := call.replies(attempt);
      var seen := limits + IfSecondary(reply);
      match Decide(call, attempt, total, seen, secondaryWait, reply)
      case Stop(outcome) => Ending(outcome, [Sent(reply)], secondaryWait)
      case Retry(wait, secondary) =>
        var rest := Attempts(call, attempt + 1, total + Charge(wait, !secondary), seen, secondaryWait + Charge(wait, secondary));
        Ending(rest.outcome, [Sent(reply), Slept(wait, secondary)] + rest.events, rest.secondaryWait)
  }

  // ---------------------------------------------------------------- what one request may do

  function Sends(events: seq<Event>): nat {
    if events == [] then 0 else (if events[0].Sent? then 1 else 0) + Sends(events[1..])
  }

  /** The seconds slept, for secondary limits or for everything else. */
  function SleptFor(events: seq<Event>, secondary: bool): real {
    if events == [] then 0.0
    else (if events[0].Slept? && events[0].secondary == secondary then events[0].seconds else 0.0) + SleptFor(events[1..], secondary)
  }

  /** The loop sends at least once and never falls out of its end. */
  lemma {:induction false} AttemptsAreBounded(call: Call, attempt: nat, total: real, limits: nat, secondaryWait: real)
    requires 1 <= attempt <= MAX_REQUEST_ATTEMPTS && total <= MAX_TOTAL_WAIT && secondaryWait <= SECONDARY_WAIT_BUDGET
    ensures var e := Attempts(call, attempt, total, limits, secondaryWait);
            && 1 <= Sends(e.events) <= MAX_REQUEST_ATTEMPTS + 1 - attempt
            && total + SleptFor(e.events, false) <= MAX_TOTAL_WAIT
            && e.secondaryWait == secondaryWait + SleptFor(e.events, true) <= SECONDARY_WAIT_BUDGET
            && e.outcome != Raised(FailedAfterRetries)
    decreases MAX_REQUEST_ATTEMPTS - attempt
  {
    hide Decide, Attempts, IsRateLimited, RetryAfter, Refused;
    var reply := call.replies(attempt);
    var seen := limits + IfSecondary(reply);
    var step := Decide(call, attempt, total, seen, secondaryWait, reply);
    DecideIsBounded(call, attempt, total, seen, secondaryWait, reply);
    AttemptStep(call, attempt, total, limits, secondaryWait);
    if step.Retry? {
      var total', wait' := total + Charge(step.wait, !step.secondary), secondaryWait + Charge(step.wait, step.secondary);
      AttemptsAreBounded(call, attempt + 1, total', seen, wait');
    } else {
      assert [Sent(reply)][1..] == [];
    }
  }

  lemma AttemptStep(call: Call, attempt: nat, total: real, limits: nat, secondaryWait: real)
    requires attempt <= MAX_REQUEST_ATTEMPTS
    ensures var reply := call.replies(attempt);
            var seen := limits + IfSecondary(reply);
            Attempts(call, attempt, total, limits, secondaryWait) ==
            match Decide(call, attempt, total, seen, secondaryWait, reply)
            case Stop(outcome) => Ending(outcome, [Sent(reply)], secondaryWait)
            case Retry(wait, secondary) =>
              var rest := Attempts(call, attempt + 1, total + Charge(wait, !secondary), seen, secondaryWait + Charge(wait, secondary));
              Ending(rest.outcome, [Sent(reply), Slept(wait, secondary)] + rest.events, rest.secondaryWait)
  {
    hide Decide;
  }

  lemma PastTheEnd(call: Call, attempt: nat, total: real, limits: nat, secondaryWait: real)
    requires attempt > MAX_REQUEST_ATTEMPTS
    ensures Attempts(call, attempt, total, limits, secondaryWait) == Ending(Raised(FailedAfterRetries), [], secondaryWait)
  {}

  /** A retry needs another attempt, and its wait fits the budget it is charged to. */
  lemma DecideIsBounded(call: Call, attempt: nat, total: real, limits: nat, secondaryWait: real, reply: Reply)
    ensures match Decide(call, attempt, total, limits, secondaryWait, reply)
            case Stop(outcome) => outcome != Raised(FailedAfterRetries)
            case Retry(wait, secondary) =>
              && attempt < MAX_REQUEST_ATTEMPTS && wait >= 1.0
              && (if secondary then secondaryWait + wait <= SECONDARY_WAIT_BUDGET else total + wait <= MAX_TOTAL_WAIT)
              && (call.isGet || Refused(reply))
              && (reply.Got? && (secondary || IsRateLimited(reply.response)) && RetryAfter(reply.response).Some? ==>
                    wait >= RetryAfter(reply.response).value)
  {}

  /** A sent request is sent again only if it is a read or GitHub refused it. */
  ghost predicate SafeToResend(call: Call, events: seq<Event>) {
    forall i, j | 0 <= i < j < |events| && events[i].Sent? && events[j].Sent? :: call.isGet || Refused(events[i].reply)
  }

  /** A wait that answers a refusal is at least as long as GitHub's Retry-After. */
  ghost predicate HonoursRetryAfter(events: seq<Event>) {
    forall i | 0 <= i < |events| - 1 && events[i].Sent? && Refused(events[i].reply) && events[i + 1].Slept? ::
      RetryAfter(events[i].reply.response).Some? ==> events[i + 1].seconds >= RetryAfter(events[i].reply.response).value
  }

  lemma {:induction false} ResendsAreSafe(call: Call, attempt: nat, total: real, limits: nat, secondaryWait: real)
    ensures SafeToResend(call, Attempts(call, attempt, total, limits, secondaryWait).events)
    ensures HonoursRetryAfter(Attempts(call, attempt, total, limits, secondaryWait).events)
    decreases MAX_REQUEST_ATTEMPTS + 1 - attempt
  {
    hide Decide, Refused, RetryAfter, Attempts, IsRateLimited;
    if attempt > MAX_REQUEST_ATTEMPTS {
      PastTheEnd(call, attempt, total, limits, secondaryWait);
    } else {
      var reply := call.replies(attempt);
      var seen := limits + IfSecondary(reply);
      var step := Decide(call, attempt, total, seen, secondaryWait, reply);
      DecideIsBounded(call, attempt, total, seen, secondaryWait, reply);
      AttemptStep(call, attempt, total, limits, secondaryWait);
      if step.Retry? {
        var total', wait' := total + Charge(step.wait, !step.secondary), secondaryWait + Charge(step.wait, step.secondary);
        ResendsAreSafe(call, attempt + 1, total', seen, wait');
        if Refused(reply) && RetryAfter(reply.response).Some? { WaitAnswers(call, attempt, total, seen, secondaryWait, reply); }
      }
    }
  }

  lemma WaitAnswers(call: Call, attempt: nat, total: real, limits: nat, secondaryWait: real, reply: Reply)
    requires Decide(call, attempt, total, limits, secondaryWait, reply).Retry? && Refused(reply)
    requires RetryAfter(reply.response).Some?
    ensures Decide(call, attempt, total, limits, secondaryWait, reply).wait >= RetryAfter(reply.response).value
  {}

  lemma StopMeans(call: Call, attempt: nat, total: real, limits: nat, secondaryWait: real, reply: Reply)
    ensures var step := Decide(call, attempt, total, limits, secondaryWait, reply);
            step.Stop? && (step.outcome.Json? || step.outcome.Nothing?) ==>
              && reply.Got? && !reply.response.secondary
              && (200 <= reply.response.status < 300
                  || (reply.response.status == 404 && call.allowNotFound && step.outcome.Nothing?))
  {}

  /** A result is returned only for the last reply, and only for a success or an allowed 404. */
  lemma {:induction false} ResultIsOfLastReply(call: Call, attempt: nat, total: real, limits: nat, secondaryWait: real)
    ensures var e := Attempts(call, attempt, total, limits, secondaryWait);
            e.outcome.Json? || e.outcome.Nothing? ==>
              && e.events != [] && e.events[|e.events| - 1].Sent? && e.events[|e.events| - 1].reply.Got?
              && var r := e.events[|e.events| - 1].reply.response;
                 && (200 <= r.status < 300 || (r.status == 404 && call.allowNotFound && e.outcome.Nothing?))
                 && !r.secondary
    decreases MAX_REQUEST_ATTEMPTS + 1 - attempt
  {
    hide Decide, Attempts;
    if attempt > MAX_REQUEST_ATTEMPTS {
      PastTheEnd(call, attempt, total, limits, secondaryWait);
    } else {
      var reply := call.replies(attempt);
      var seen := limits + IfSecondary(reply);
      var step := Decide(call, attempt, total, seen, secondaryWait, reply);
      AttemptStep(call, attempt, total, limits, secondaryWait);
      StopMeans(call, attempt, total, seen, secondaryWait, reply);
      if step.Retry? {
        var total', wait' := total + Charge(step.wait, !step.secondary), secondaryWait + Charge(step.wait, step.secondary);
        ResultIsOfLastReply(call, attempt + 1, total', seen, wait');
        var rest := Attempts(call, attempt + 1, total', seen, wait').events;
        var events := [Sent(reply), Slept(step.wait, step.secondary)] + rest;
        assert rest != [] ==> events[|events| - 1] == rest[|rest| - 1];
      }
    }
  }

  // ---------------------------------------------------------------- what a reply means

  /** GitHub's refusals: a secondary limit, too many requests, or a forbidden request whose headers
      name a time or an empty allowance. */
  lemma RefusedExactly(reply: Reply)
    ensures Refused(reply) <==>
            && reply.Got?
            && var r := reply.response;
               || r.secondary || r.status == 429
               || (r.status == 403 && (r.retryAfter.Number? || r.retryAfter.Junk? || r.remainingIsZero))
  {}

  /** Replies that end the loop whatever else they say. */
  predicate Settles(call: Call, r: Response) {
    || (r.status == 404 && call.allowNotFound && !r.secondary)
    || (r.status == 403 && r.suspended)
    || (r.secondary && r.creationBlocked && !call.isGet)
  }

  /** A refusal may be repeated; a request without an answer, or with a server's error, only if it reads. */
  predicate WorthRepeating(call: Call, reply: Reply) {
    match reply
    case Lost => call.isGet
    case UnsafeRedirect => false
    case Got(r) =>
      !Settles(call, r) && (Refused(reply) || (call.isGet && (r.status == 500 || r.status == 502 || r.status == 503 || r.status == 504)))
  }

  function Doubled(first: real, turn: nat): real {
    if turn <= 1 then first else if turn == 2 then 2.0 * first else 4.0 * first
  }

  /** The wait before a reply's request is repeated. */
  function WaitFor(call: Call, attempt: nat, limits: nat, reply: Reply): real {
    var asked := if reply.Got? && reply.response.retryAfter.Number?
                 then Some(if reply.response.retryAfter.value >= 1 then reply.response.retryAfter.value as real else 1.0) else None;
    if reply.Got? && reply.response.secondary then
      if asked.Some? && asked.value > Doubled(60.0, limits) then asked.value else Doubled(60.0, limits)
    else if !Refused(reply) then Doubled(2.0, attempt)
    else if asked.Some? then asked.value
    else if reply.response.reset.Number? && reply.response.remainingIsZero then
      var left := reply.response.reset.value as real - call.wallClock(attempt);
      if left > 1.0 then left else 1.0
    else Doubled(2.0, attempt)
  }

  /** The wait fits the budget it is charged to. */
  predicate Fits(call: Call, attempt: nat, total: real, limits: nat, secondaryWait: real, reply: Reply) {
    var wait := WaitFor(call, attempt, limits, reply);
    if reply.Got? && reply.response.secondary then limits <= 3 && secondaryWait + wait <= 600.0
    else total + wait <= 180.0 && (Refused(reply) ==> wait <= 60.0)
  }

  /** What a reply means when its request is not repeated. */
  function Meaning(call: Call, reply: Reply): Outcome {
    match reply
    case Lost => Raised(TransportFailure)
    case UnsafeRedirect => Raised(RedirectStopped)
    case Got(r) =>
      if r.status == 404 && call.allowNotFound && !r.secondary then Nothing
      else if r.status == 403 && r.suspended then Raised(AccountSuspended)
      else if r.secondary then Raised(if r.creationBlocked && !call.isGet then PublicationBlocked else SecondaryLimit)
      else if Refused(reply) then Raised(RateLimit)
      else if r.status == 204 then Nothing
      else if r.status < 200 || r.status >= 300 then Raised(HttpError(r.status))
      else if r.json then Json
      else Raised(InvalidJson)
  }

  /** A request is repeated exactly when its reply is worth it, fewer than four were sent, and the
      wait fits; otherwise the reply means what it says. */
  lemma DecidesExactly(call: Call, attempt: nat, total: real, limits: nat, secondaryWait: real, reply: Reply)
    ensures var step := Decide(call, attempt, total, limits, secondaryWait, reply);
            && (step.Retry? <==>
                  WorthRepeating(call, reply) && attempt < 4 && Fits(call, attempt, total, limits, secondaryWait, reply))
            && (step.Retry? ==> step.wait == WaitFor(call, attempt, limits, reply)
                                && step.secondary == (reply.Got? && reply.response.secondary))
            && (step.Stop? ==> step.outcome == Meaning(call, reply))
  {}

  /** How many of these replies were secondary limits. */
  function SecondaryLimits(call: Call, from: nat, to: nat): nat
    decreases to - from
  {
    if from >= to then 0
    else SecondaryLimits(call, from + 1, to) + if call.replies(from).Got? && call.replies(from).response.secondary then 1 else 0
  }

  /** A request sent with these attempts: each but the last was followed by its wait. */
  function Script(call: Call, attempt: nat, last: nat, limits: nat): seq<Event>
    decreases last - attempt
  {
    var reply := call.replies(attempt);
    var seen := limits + SecondaryLimits(call, attempt, attempt + 1);
    if attempt >= last then [Sent(reply)]
    else [Sent(reply), Slept(WaitFor(call, attempt, seen, reply), reply.Got? && reply.response.secondary)]
         + Script(call, attempt + 1, last, seen)
  }

  /** Over all attempts: every reply but the last was worth repeating and was followed by its wait;
      the last was not worth it, or four were sent, or its wait did not fit in what the waits before
      it had left. The outcome is what the last one means. */
  lemma {:induction false} OutcomeIsTheLastReplys(call: Call, attempt: nat, total: real, limits: nat, secondaryWait: real) returns (last: nat)
    requires attempt <= MAX_REQUEST_ATTEMPTS
    ensures attempt <= last <= 4 && forall k | attempt <= k < last :: WorthRepeating(call, call.replies(k))
    ensures var (e, reply) := (Attempts(call, attempt, total, limits, secondaryWait), call.replies(last));
            && e.events == Script(call, attempt, last, limits) && e.outcome == Meaning(call, reply)
            && (last == 4 || !WorthRepeating(call, reply)
                || !Fits(call, last, total + SleptFor(e.events, false), limits + SecondaryLimits(call, attempt, last + 1),
                         secondaryWait + SleptFor(e.events, true), reply))
    decreases MAX_REQUEST_ATTEMPTS + 1 - attempt
  {
    hide Decide, Attempts, WorthRepeating, Fits, WaitFor, Meaning, SleptFor;
    var reply := call.replies(attempt);
    var seen := limits + IfSecondary(reply);
    var step := Decide(call, attempt, total, seen, secondaryWait, reply);
    AttemptStep(call, attempt, total, limits, secondaryWait);
    DecidesExactly(call, attempt, total, seen, secondaryWait, reply);
    OneLimit(call, attempt);
    if step.Retry? {
      var total', wait' := total + Charge(step.wait, !step.secondary), secondaryWait + Charge(step.wait, step.secondary);
      last := OutcomeIsTheLastReplys(call, attempt + 1, total', seen, wait');
      SleptFirst(reply, step.wait, step.secondary, Attempts(call, attempt + 1, total', seen, wait').events);
    } else {
      last := attempt;
      SleptNothing(reply);
    }
  }

  lemma OneLimit(call: Call, attempt: nat)
    ensures SecondaryLimits(call, attempt, attempt + 1) == if call.replies(attempt).Got? && call.replies(attempt).response.secondary then 1 else 0
  {
    assert SecondaryLimits(call, attempt + 1, attempt + 1) == 0;
  }

  lemma SleptFirst(reply: Reply, wait: real, secondary: bool, rest: seq<Event>)
    ensures var events := [Sent(reply), Slept(wait, secondary)] + rest;
            && SleptFor(events, secondary) == wait + SleptFor(rest, secondary)
            && SleptFor(events, !secondary) == SleptFor(rest, !secondary)
  {
    var events := [Sent(reply), Slept(wait, secondary)] + rest;
    assert events[1..] == [Slept(wait, secondary)] + rest && events[1..][1..] == rest;
  }

  lemma SleptNothing(reply: Reply)
    ensures SleptFor([Sent(reply)], true) == 0.0 && SleptFor([Sent(reply)], false) == 0.0
  {
    assert [Sent(reply)][1..] == [];
  }

  // ---------------------------------------------------------------- every history of one client

  /** The secondary wait of a client after each of its requests, in turn. */
  function WaitAfter(calls: seq<Call>, secondaryWait: real): real
    decreases |calls|
  {
    if calls == [] then secondaryWait
    else WaitAfter(calls[1..], Attempts(calls[0], 1, 0.0, 0, secondaryWait).secondaryWait)
  }

  function AllEvents(calls: seq<Call>, secondaryWait: real): seq<Event>
    decreases |calls|
  {
    if calls == [] then []
    else
      var e := Attempts(calls[0], 1, 0.0, 0, secondaryWait);
      e.events + AllEvents(calls[1..], e.secondaryWait)
  }

  lemma {:induction false} SleptConcat(a: seq<Event>, b: seq<Event>, secondary: bool)
    ensures SleptFor(a + b, secondary) == SleptFor(a, secondary) + SleptFor(b, secondary)
    decreases |a|
  {
    if a == [] {
      assert a + b == b;
    } else {
      assert (a + b)[1..] == a[1..] + b;
      SleptConcat(a[1..], b, secondary);
    }
  }

  /** Whatever a client requests, its waits for secondary limits sum to at most ten minutes. */
  lemma {:induction false} ClientWaitsAreBounded(calls: seq<Call>, secondaryWait: real)
    requires secondaryWait <= SECONDARY_WAIT_BUDGET
    ensures WaitAfter(calls, secondaryWait) == secondaryWait + SleptFor(AllEvents(calls, secondaryWait), true)
    ensures WaitAfter(calls, secondaryWait) <= SECONDARY_WAIT_BUDGET
    decreases |calls|
  {
    if calls != [] {
      var e := Attempts(calls[0], 1, 0.0, 0, secondaryWait);
      AttemptsAreBounded(calls[0], 1, 0.0, 0, secondaryWait);
      hide Attempts;
      ClientWaitsAreBounded(calls[1..], e.secondaryWait);
      SleptConcat(e.events, AllEvents(calls[1..], e.secondaryWait), true);
    }
  }

  // ---------------------------------------------------------------- the client

  /** The clock readings of a search never run behind the last recorded search. */
  predicate ClockAdvances(call: Call, attempt: nat, recent: seq<real>)
    decreases MAX_REQUEST_ATTEMPTS + 1 - attempt
  {
    attempt > MAX_REQUEST_ATTEMPTS ||
    ((recent == [] || recent[|recent| - 1] <= call.monotonic(attempt))
     && ClockAdvances(call, attempt + 1, AfterSearch(recent, call.monotonic(attempt))))
  }

  lemma LastIsLast(recent: seq<real>, history: seq<real>)
    requires Holds(recent, history) && history != []
    ensures recent != [] && recent[|recent| - 1] == history[|history| - 1]
  {}

  lemma {:induction false} SendsConcat(a: seq<Event>, b: seq<Event>)
    ensures Sends(a + b) == Sends(a) + Sends(b)
    decreases |a|
  {
    if a == [] {
      assert a + b == b;
    } else {
      assert (a + b)[1..] == a[1..] + b;
      SendsConcat(a[1..], b);
    }
  }

  lemma SendsGrow(events: seq<Event>, reply: Reply, step: Step)
    ensures Sends(events + [Sent(reply)]) == Sends(events) + 1
    ensures step.Retry? ==> Sends(events + [Sent(reply), Slept(step.wait, step.secondary)]) == Sends(events) + 1
  {
    SendsConcat(events, [Sent(reply)]);
    assert [Sent(reply)][1..] == [];
    if step.Retry? {
      var pair := [Sent(reply), Slept(step.wait, step.secondary)];
      SendsConcat(events, pair);
      assert pair[1..] == [Slept(step.wait, step.secondary)] && pair[1..][1..] == [];
    }
  }

  lemma DropOne(recent: seq<real>, limit: real)
    requires recent != [] && recent[0] <= limit
    ensures DropUpTo(recent, limit) == DropUpTo(recent[1..], limit)
  {}

  lemma RecordedAfter(before: seq<real>, kept: seq<real>, now: real)
    requires var at := SearchTime(before, now);
             DropUpTo(before, at - 60.0) == DropUpTo(kept, at - 60.0) && (kept == [] || at - 60.0 < kept[0])
    ensures kept + [SearchTime(before, now)] == AfterSearch(before, now)
  {}

  function After(events: seq<Event>, rest: Ending): Ending {
    rest.(events := events + rest.events)
  }

  lemma NothingYet(e: Ending)
    ensures After([], e) == e && Sends([]) == 0
  {
    assert [] + e.events == e.events;
  }

  lemma AfterTwo(events: seq<Event>, two: seq<Event>, rest: Ending)
    ensures After(events, After(two, rest)) == After(events + two, rest)
  {
    Regroup(events, two, rest.events);
  }

  class GitHubClient {
    var secondaryWaitSeconds: real
    var secondaryLimitExhausted: bool
    var recentSearches: seq<real>
    /** Every search recorded so far. */
    ghost var searches: seq<real>

    ghost predicate Valid()
      reads this
    {
      0.0 <= secondaryWaitSeconds <= SECONDARY_WAIT_BUDGET && Holds(recentSearches, searches)
    }

    constructor ()
      ensures Valid() && secondaryWaitSeconds == 0.0 && !secondaryLimitExhausted && searches == []
    {
      secondaryWaitSeconds, secondaryLimitExhausted, recentSearches, searches := 0.0, false, [], [];
    }

    method ThrottleSearch(now: real) returns (waited: real)
      requires Valid() && (recentSearches != [] ==> recentSearches[|recentSearches| - 1] <= now)
      modifies this`recentSearches, this`searches
      ensures Valid() && waited >= 0.0
      ensures now + waited == SearchTime(old(recentSearches), now)
      ensures recentSearches == AfterSearch(old(recentSearches), now)
      ensures searches == old(searches) + [now + waited]
    {
      hide Holds, EndOf, Ascending, Spaced, AfterSearch;
      waited := 0.0;
      var clock := now;
      if |recentSearches| >= SEARCHES_PER_MINUTE {
        var wait := recentSearches[0] + 60.0 - clock;
        if wait > 0.0 {
          waited := wait;
          clock := clock + wait;
        }
      }
      if searches != [] { LastIsLast(recentSearches, searches); }
      SearchKeepsHolds(recentSearches, searches, now);
      ghost var before := recentSearches;
      assert clock == SearchTime(before, now);
      hide SearchTime, DropUpTo;
      while recentSearches != [] && recentSearches[0] <= clock - 60.0
        invariant searches == old(searches)
        invariant DropUpTo(before, clock - 60.0) == DropUpTo(recentSearches, clock - 60.0)
        decreases |recentSearches|
      {
        DropOne(recentSearches, clock - 60.0);
        recentSearches := recentSearches[1..];
      }
      RecordedAfter(before, recentSearches, now);
      recentSearches := recentSearches + [clock];
      searches := searches + [clock];
    }

    method Request(call: Call) returns (outcome: Outcome, events: seq<Event>)
      requires Valid() && (call.isSearch ==> ClockAdvances(call, 1, recentSearches))
      modifies this
      ensures Valid()
      ensures var e := Attempts(call, 1, 0.0, 0, old(secondaryWaitSeconds));
              outcome == e.outcome && events == e.events && secondaryWaitSeconds == e.secondaryWait
      ensures secondaryLimitExhausted <==> old(secondaryLimitExhausted) || outcome == Raised(SecondaryLimit)
      ensures old(searches) <= searches
      ensures |searches| == |old(searches)| + if call.isSearch then Sends(events) else 0
    {
      hide Decide, Holds, DropUpTo, SearchTime, Attempts, Sends, AfterSearch, RetryAfter, IsRateLimited, Refused, SleptFor;
      var totalWait := 0.0;
      var secondaryLimits: nat := 0;
      ghost var all := Attempts(call, 1, 0.0, 0, secondaryWaitSeconds);
      AttemptsAreBounded(call, 1, 0.0, 0, secondaryWaitSeconds);
      events := [];
      NothingYet(all);
      for attempt := 1 to MAX_REQUEST_ATTEMPTS + 1
        invariant Holds(recentSearches, searches)
        invariant 0.0 <= secondaryWaitSeconds && totalWait <= MAX_TOTAL_WAIT && secondaryWaitSeconds <= SECONDARY_WAIT_BUDGET
        invariant secondaryLimitExhausted == old(secondaryLimitExhausted)
        invariant call.isSearch ==> ClockAdvances(call, attempt, recentSearches)
        invariant old(searches) <= searches
        invariant |searches| == |old(searches)| + if call.isSearch then Sends(events) else 0
        invariant all == After(events, Attempts(call, attempt, totalWait, secondaryLimits, secondaryWaitSeconds))
      {
        if call.isSearch {
          var waited := ThrottleSearch(call.monotonic(attempt));
        }
        var reply := call.replies(attempt);
        AttemptStep(call, attempt, totalWait, secondaryLimits, secondaryWaitSeconds);
        if reply.Got? && reply.response.secondary { secondaryLimits := secondaryLimits + 1; }
        var step := Decide(call, attempt, totalWait, secondaryLimits, secondaryWaitSeconds, reply);
        DecideIsBounded(call, attempt, totalWait, secondaryLimits, secondaryWaitSeconds, reply);
        SendsGrow(events, reply, step);
        if step.Stop? {
          if step.outcome == Raised(SecondaryLimit) { secondaryLimitExhausted := true; }
          return step.outcome, events + [Sent(reply)];
        }
        AfterTwo(events, [Sent(reply), Slept(step.wait, step.secondary)],
                 Attempts(call, attempt + 1, totalWait + Charge(step.wait, !step.secondary), secondaryLimits,
                          secondaryWaitSeconds + Charge(step.wait, step.secondary)));
        events := events + [Sent(reply), Slept(step.wait, step.secondary)];
        if step.secondary {
          secondaryWaitSeconds := secondaryWaitSeconds + step.wait;
        } else {
          totalWait := totalWait + step.wait;
        }
      }
      PastTheEnd(call, MAX_REQUEST_ATTEMPTS + 1, totalWait, secondaryLimits, secondaryWaitSeconds);
      assert false;
    }
  }
}
