/** One turn's request to a model: reserved, sent, retried and settled. */
module ModelRequest {
  import opened Results
  import opened Pricing
  import opened Budget

  const MAX_ATTEMPTS := 3
  const MAX_RETRY_WAIT := 120.0
  const MIN_TURN_OUTPUT := 4000

  // ---------------------------------------------------------------- retry decisions

  /** A failed request; `final` for the provider codes that no retry can help. */
  datatype Failure = TimedOut | Refused(status: Option<int>, final: bool, retryAfter: Option<real>) | Broken

  predicate Retriable(f: Failure) {
    match f
    case TimedOut => true
    case Refused(status, final, _) => !final && (status.None? || status.value in {408, 409, 429, 500, 502, 503, 504, 529})
    case Broken => false
  }

  function Power(n: nat): real {
    if n == 0 then 1.0 else 3.0 * Power(n - 1)
  }

  /** What the provider asked for, if it did. */
  function Asked(f: Failure): Option<real> {
    if f.Refused? then f.retryAfter else None
  }

  function Delay(f: Failure, attempt: nat): real {
    match Asked(f)
    case Some(asked) => asked
    case None => 10.0 * Power(if attempt > 0 then attempt - 1 else 0)
  }

  function Stretched(delay: real, jitter: real): real {
    delay * (1.0 + 0.25 * jitter)
  }

  /** `retry_decision`: how long to wait, or nothing when the request is not worth repeating. */
  function RetryWait(f: Failure, attempt: nat, jitter: real): Option<real> {
    if !Retriable(f) || attempt >= MAX_ATTEMPTS then None
    else if Asked(f).Some? && Asked(f).value > MAX_RETRY_WAIT then None
    else Some(Min(Stretched(Delay(f, attempt), jitter), MAX_RETRY_WAIT))
  }

  /** A timeout, and a refusal that is not final and whose status, if it has one, is of this list. */
  predicate MayPass(f: Failure) {
    || f.TimedOut?
    || (f.Refused? && !f.final
        && (f.status.Some? ==>
              var status := f.status.value;
              || status == 408 || status == 409 || status == 429 || status == 500
              || status == 502 || status == 503 || status == 504 || status == 529))
  }

  /** A failed attempt is retried exactly when it may pass, is not the third, and the provider did
      not ask for more than two minutes. The wait is what the provider asked for, else 10 seconds
      and then 30, lengthened by at most a quarter and never beyond two minutes. */
  lemma RetryWaitsAreBounded(f: Failure, attempt: nat, jitter: real)
    requires attempt >= 1 && 0.0 <= jitter < 1.0 && (Asked(f).Some? ==> Asked(f).value >= 0.0)
    ensures var wait := RetryWait(f, attempt, jitter);
            && (wait.Some? <==> MayPass(f) && attempt < 3 && (Asked(f).Some? ==> Asked(f).value <= 120.0))
            && (wait.Some? ==>
                  && wait.value <= 120.0
                  && var base := if Asked(f).Some? then Asked(f).value else if attempt == 1 then 10.0 else 30.0;
                     base <= wait.value <= base * 1.25)
  {
    hide Stretched;
    var base := if Asked(f).Some? then Asked(f).value else if attempt == 1 then 10.0 else 30.0;
    Lengthened(base, jitter);
    hide Delay, Power;
  }

  lemma Lengthened(base: real, jitter: real)
    requires base >= 0.0 && 0.0 <= jitter < 1.0
    ensures base <= Stretched(base, jitter) <= base * 1.25
  {
    var share := 0.25 * jitter;
    assert 0.0 <= base * share <= base * 0.25;
    assert base * (1.0 + share) == base + base * share;
  }

  // ---------------------------------------------------------------- the request loop

  datatype Reply = Answered(usage: Usage, cutOff: bool) | Failed(failure: Failure)

  /** What the provider, the clock and the guards will say on each pass of the loop. */
  datatype World = World(
    replies: nat -> Reply, secondsLeft: nat -> real, secondsLeftToRetry: nat -> real, jitter: nat -> real,
    allowed: nat -> bool, owned: nat -> bool, clear: nat -> bool)

  datatype Outcome =
    | TurnReady(usage: Usage)
    | DidNotFinish(outOfTime: bool)
    | LoopFailure
    | Raised(error: BudgetError)

  /** What one transcript's requests have in common. */
  datatype Setup = Setup(scope: Scope, spec: Spec, inputTokens: nat)

  /** The loop's variables: the output cap and its minimum, the failures so far, and whether the
      cap was raised. */
  datatype Progress = Progress(cap: nat, minimum: nat, failures: nat, enlarged: bool)

  /** The end of the loop: the books, the outcome and the output limit of every request sent. */
  datatype Ending = Ending(books: Books, outcome: Outcome, limits: seq<nat>)

  function LargerCap(spec: Spec, cap: nat): nat {
    if spec.openai then (if 2 * cap < spec.maxOutputTokens then 2 * cap else spec.maxOutputTokens) else spec.maxOutputTokens
  }

  function AskFor(s: Setup, p: Progress, w: World, n: nat): Ask {
    Ask(s.scope, s.spec, s.inputTokens, p.cap, p.minimum, w.secondsLeft(n), w.allowed(n))
  }

  /** What a pass of the loop does once its request is reserved. */
  datatype Pass = Again(books: Books, progress: Progress) | Done(books: Books, outcome: Outcome)

  function AfterFailure(b: Books, p: Progress, r: Reservation, f: Failure, w: World, n: nat): Pass
    requires b.spent.Keys == ALL_SCOPES
  {
    if RecordFailure(b, r, w.owned(n)).Err? then Done(b, Raised(RecordFailure(b, r, w.owned(n)).error))
    else if f.Broken? then Done(b, LoopFailure)
    else
      var wait := RetryWait(f, p.failures + 1, w.jitter(n));
      if wait.None? || wait.value >= w.secondsLeftToRetry(n) then Done(b, LoopFailure)
      else
        var (after, charged) := RetryCharged(b, r, w.owned(n));
        if charged.Err? then Done(after, Raised(charged.error)) else Again(after, p.(failures := p.failures + 1))
  }

  function AfterAnswer(l: Limits, b: Books, p: Progress, spec: Spec, r: Reservation, usage: Usage, cutOff: bool, w: World, n: nat): Pass
    requires b.spent.Keys == ALL_SCOPES
  {
    var (after, settled) := Settled(l, b, r, usage, w.owned(n), w.clear(n));
    if settled.Err? then Done(after, Raised(settled.error))
    else if !cutOff then Done(after, TurnReady(usage))
    else if r.output < p.cap then Done(after, DidNotFinish(false))
    else
      var larger := LargerCap(spec, p.cap);
      if p.enlarged || larger <= p.cap then Done(after, LoopFailure)
      else Again(after, Progress(larger, p.cap + 1, p.failures, true))
  }

  function AfterReply(l: Limits, b: Books, s: Setup, p: Progress, r: Reservation, w: World, n: nat): Pass
    requires b.spent.Keys == ALL_SCOPES
  {
    match w.replies(n)
    case Failed(f) => AfterFailure(b, p, r, f, w, n)
    case Answered(usage, cutOff) => AfterAnswer(l, b, p, s.spec, r, usage, cutOff, w, n)
  }

  function Refusal(e: BudgetError): Outcome {
    if e.Exhausted? then DidNotFinish(e.limit.Time?) else Raised(e)
  }

  predicate InLoop(b: Books, s: Setup, p: Progress) {
    b.spent.Keys == ALL_SCOPES && Priced(s.spec) && p.failures < MAX_ATTEMPTS
  }

  lemma KeysStay(l: Limits, b: Books, s: Setup, p: Progress, r: Reservation, w: World, n: nat)
    requires b.spent.Keys == ALL_SCOPES && p.failures < MAX_ATTEMPTS
    ensures AfterReply(l, b, s, p, r, w, n).books.spent.Keys == ALL_SCOPES
    ensures var pass := AfterReply(l, b, s, p, r, w, n);
            pass.Again? ==>
              && pass.progress.failures < MAX_ATTEMPTS
              && (if w.replies(n).Failed? then pass.progress == p.(failures := p.failures + 1)
                  else p.cap < pass.progress.minimum && !p.enlarged && pass.progress.enlarged
                       && pass.progress.minimum <= pass.progress.cap && pass.progress.failures == p.failures)
  {
    EveryScope(r.scope);
    hide Cost;
  }

  /** `_request` from its `n`th pass on. */
  function RequestFrom(l: Limits, b: Books, s: Setup, p: Progress, w: World, n: nat): Ending
    requires InLoop(b, s, p)
    decreases MAX_ATTEMPTS - p.failures + (if p.enlarged then 0 else 1)
  {
    var (reserved, r) := Reserved(l, b, AskFor(s, p, w, n));
    if r.Err? then Ending(reserved, Refusal(r.error), [])
    else
      KeysStay(l, reserved, s, p, r.value, w, n);
      var pass := AfterReply(l, reserved, s, p, r.value, w, n);
      match pass
      case Done(books, outcome) => Ending(books, outcome, [r.value.output])
      case Again(books, progress) =>
        var rest := RequestFrom(l, books, s, progress, w, n + 1);
        rest.(limits := [r.value.output] + rest.limits)
  }

  function Start(spec: Spec, cap: nat): Progress {
    Progress(cap, if cap < MIN_TURN_OUTPUT then cap else MIN_TURN_OUTPUT, 0, false)
  }

  // ---------------------------------------------------------------- what the loop keeps

  /** The money side of one pass. */
  lemma PassKeepsBooks(l: Limits, b: Books, s: Setup, p: Progress, r: Reservation, w: World, n: nat)
    requires Balanced(b) && b.pending == Some(r) && r in b.issued && p.failures < MAX_ATTEMPTS
    ensures var pass := AfterReply(l, b, s, p, r, w, n);
            && Balanced(pass.books) && pass.books.issued == b.issued
            && (pass.Again? ==> pass.books.pending.None?)
            && (pass.Done? && pass.books.pending.Some? ==> pass.outcome.LoopFailure? || pass.outcome.Raised?)
            && (WithinCaps(l, b) && (pass.Done? ==> pass.outcome != Raised(Overrun)) ==> WithinCaps(l, pass.books))
  {
    hide Balanced, WithinCaps, Cost, RetryWait;
    BalancedKeys(b);
    match w.replies(n)
    case Failed(f) => FullChargeKeeps(l, b);
    case Answered(usage, _) => SettleKeeps(l, b, r, usage, w.owned(n), w.clear(n));
  }

  lemma ReserveIssues(l: Limits, b: Books, a: Ask)
    requires Balanced(b) && Priced(a.spec)
    ensures var (after, r) := Reserved(l, b, a);
            && Balanced(after) && (WithinCaps(l, b) ==> WithinCaps(l, after))
            && (if r.Ok? then after.pending == Some(r.value) && after.issued == b.issued + [r.value]
                              && a.minOutput <= r.value.output <= a.maxOutput
                else after == b)
  {
    ReserveBalances(l, b, a);
    if WithinCaps(l, b) { ReserveKeeps(l, b, a); }
    hide Balanced, WithinCaps, Priced, UpperBound, Affordable;
    BalancedKeys(b);
  }

  /** One turn: at most four requests, each reserved once; afterwards a reservation is pending
      only when the turn failed; the books balance and stay within the caps unless the provider
      billed more than was reserved. */
  lemma {:induction false} RequestKeepsBooks(l: Limits, b: Books, s: Setup, p: Progress, w: World, n: nat)
    requires Balanced(b) && Priced(s.spec) && p.failures < MAX_ATTEMPTS && b.pending.None?
    ensures InLoop(b, s, p)
    ensures var e := RequestFrom(l, b, s, p, w, n);
            && Balanced(e.books) && |e.books.issued| == |b.issued| + |e.limits|
            && |e.limits| <= MAX_ATTEMPTS - p.failures + (if p.enlarged then 0 else 1)
            && (e.books.pending.Some? ==> e.outcome.LoopFailure? || e.outcome.Raised?)
            && (WithinCaps(l, b) && e.outcome != Raised(Overrun) ==> WithinCaps(l, e.books))
    decreases MAX_ATTEMPTS - p.failures + (if p.enlarged then 0 else 1)
  {
    hide Balanced, WithinCaps, Priced, Reserved, AfterReply;
    BalancedKeys(b);
    ReserveIssues(l, b, AskFor(s, p, w, n));
    var (reserved, r) := Reserved(l, b, AskFor(s, p, w, n));
    BalancedKeys(reserved);
    if r.Ok? {
      KeysStay(l, reserved, s, p, r.value, w, n);
      PassKeepsBooks(l, reserved, s, p, r.value, w, n);
      var pass := AfterReply(l, reserved, s, p, r.value, w, n);
      if pass.Again? { RequestKeepsBooks(l, pass.books, s, pass.progress, w, n + 1); }
    }
  }

  /** Every request after a cut-off turn has a limit above the one that was too small. */
  ghost predicate GrowsAfterCutOff(limits: seq<nat>, w: World, n: nat) {
    forall i, j | 0 <= i < j < |limits| && w.replies(n + i).Answered? :: limits[i] < limits[j]
  }

  lemma {:induction false} CutOffTurnsGetMoreRoom(l: Limits, b: Books, s: Setup, p: Progress, w: World, n: nat)
    requires Balanced(b) && Priced(s.spec) && p.failures < MAX_ATTEMPTS && b.pending.None?
    ensures InLoop(b, s, p)
    ensures var limits := RequestFrom(l, b, s, p, w, n).limits;
            GrowsAfterCutOff(limits, w, n) && forall i | 0 <= i < |limits| :: p.minimum <= limits[i] && (p.enlarged ==> limits[i] <= p.cap)
    decreases MAX_ATTEMPTS - p.failures + (if p.enlarged then 0 else 1)
  {
    hide Balanced, WithinCaps, Priced, Reserved, AfterReply;
    BalancedKeys(b);
    ReserveIssues(l, b, AskFor(s, p, w, n));
    var (reserved, r) := Reserved(l, b, AskFor(s, p, w, n));
    BalancedKeys(reserved);
    if r.Ok? {
      KeysStay(l, reserved, s, p, r.value, w, n);
      PassKeepsBooks(l, reserved, s, p, r.value, w, n);
      var pass := AfterReply(l, reserved, s, p, r.value, w, n);
      if pass.Again? {
        CutOffTurnsGetMoreRoom(l, pass.books, s, pass.progress, w, n + 1);
        var rest := RequestFrom(l, pass.books, s, pass.progress, w, n + 1).limits;
      }
    }
  }

  /** The output limit of the request after a turn cut off at `limit`: OpenAI's models get at most
      twice as much, others all that they can put out. */
  function RoomAfter(spec: Spec, limit: nat): nat {
    if !spec.openai || 2 * limit > spec.maxOutputTokens then spec.maxOutputTokens else 2 * limit
  }

  /** The reply to the `i`th request of a turn that began with the `n`th pass. */
  function ReplyTo(w: World, n: nat, i: nat): Reply {
    w.replies(n + i)
  }

  /** The turn is ready exactly when the last request sent got a whole answer and nothing was raised. */
  predicate ReadyExactly(e: Ending, w: World, n: nat) {
    var k := |e.limits|;
    && (e.outcome.TurnReady? <==> k > 0 && !e.outcome.Raised? && ReplyTo(w, n, k - 1).Answered? && !ReplyTo(w, n, k - 1).cutOff)
    && (e.outcome.TurnReady? ==> e.outcome.usage == ReplyTo(w, n, k - 1).usage)
  }

  /** Another request followed only a failure worth repeating or an answer cut off. */
  ghost predicate WorthRepeating(e: Ending, w: World, n: nat) {
    forall i: nat | i < |e.limits| - 1 ::
      match ReplyTo(w, n, i) case Failed(f) => Retriable(f) case Answered(_, cutOff) => cutOff
  }

  ghost predicate OnlyFailures(e: Ending, w: World, n: nat, from: nat) {
    forall i: nat | from <= i < |e.limits| - 1 :: ReplyTo(w, n, i).Failed?
  }

  /** Only one answer is repeated, and after it no request asks for more than the room that
      follows its limit. */
  ghost predicate OnceWithMoreRoom(spec: Spec, e: Ending, w: World, n: nat) {
    forall i: nat | i < |e.limits| - 1 && ReplyTo(w, n, i).Answered? ::
      && OnlyFailures(e, w, n, i + 1)
      && forall j | i < j < |e.limits| :: e.limits[j] <= RoomAfter(spec, e.limits[i])
  }

  lemma PassEnds(l: Limits, b: Books, s: Setup, p: Progress, r: Reservation, w: World, n: nat)
    requires Balanced(b) && b.pending == Some(r) && p.failures < MAX_ATTEMPTS && r.output <= p.cap
    requires b.spent.Keys == ALL_SCOPES
    ensures var pass := AfterReply(l, b, s, p, r, w, n);
            match w.replies(n)
            case Failed(f) =>
              && (pass.Done? ==> pass.outcome.LoopFailure? || pass.outcome.Raised?)
              && (pass.Again? ==> Retriable(f) && pass.progress == p.(failures := p.failures + 1))
            case Answered(usage, cutOff) =>
              && (pass.Done? && !pass.outcome.Raised? ==> if cutOff then !pass.outcome.TurnReady? else pass.outcome == TurnReady(usage))
              && (pass.Again? ==> cutOff && !p.enlarged && pass.progress.enlarged && pass.progress.cap == RoomAfter(s.spec, r.output))
  {
    hide Balanced, Settled, RetryCharged, RecordFailure;
  }

  /** An answer cut off below the limit asked for did not finish; one cut off at it is asked for
      again with more room, once, if there is any. */
  lemma CutOffExactly(l: Limits, b: Books, s: Setup, p: Progress, r: Reservation, usage: Usage, w: World, n: nat)
    requires b.spent.Keys == ALL_SCOPES && r.output <= p.cap && Settled(l, b, r, usage, w.owned(n), w.clear(n)).1.Ok?
    ensures var books := Settled(l, b, r, usage, w.owned(n), w.clear(n)).0;
            AfterAnswer(l, b, p, s.spec, r, usage, true, w, n) ==
            if r.output != p.cap then Done(books, DidNotFinish(false))
            else if !p.enlarged && p.cap < RoomAfter(s.spec, p.cap) then Again(books, Progress(RoomAfter(s.spec, p.cap), p.cap + 1, p.failures, true))
            else Done(books, LoopFailure)
  {
    hide Settled;
  }

  /** A failed request is sent again, charged in full, exactly when it may pass, fewer than three have
      failed with it, the provider asked for no more than two minutes, and the wait ends in time. */
  lemma FailuresExactly(b: Books, p: Progress, r: Reservation, f: Failure, w: World, n: nat)
    requires b.spent.Keys == ALL_SCOPES
    ensures var pass := AfterFailure(b, p, r, f, w, n);
            var recorded := RecordFailure(b, r, w.owned(n));
            var again := && recorded.Ok? && MayPass(f) && p.failures < 2 && (Asked(f).Some? ==> Asked(f).value <= 120.0)
                         && RetryWait(f, p.failures + 1, w.jitter(n)).value < w.secondsLeftToRetry(n);
            && (pass.Again? <==> again)
            && (again ==> pass == Again(RetryCharged(b, r, true).0, p.(failures := p.failures + 1)))
            && (!again ==> pass == Done(b, if recorded.Err? then Raised(recorded.error) else LoopFailure))
  {
    FullChargesExactly(b, r, w.owned(n));
    hide Stretched, Delay, Charged;
  }

  /** How a turn ends, and what each of its requests was sent for. */
  lemma {:induction false} TurnEndsWell(l: Limits, b: Books, s: Setup, p: Progress, w: World, n: nat)
    requires Balanced(b) && Priced(s.spec) && p.failures < MAX_ATTEMPTS && b.pending.None?
    ensures InLoop(b, s, p)
    ensures var e := RequestFrom(l, b, s, p, w, n);
            && ReadyExactly(e, w, n) && WorthRepeating(e, w, n) && OnceWithMoreRoom(s.spec, e, w, n)
            && (p.enlarged ==> OnlyFailures(e, w, n, 0) && forall j | 0 <= j < |e.limits| :: e.limits[j] <= p.cap)
    decreases MAX_ATTEMPTS - p.failures + (if p.enlarged then 0 else 1)
  {
    hide Balanced, WithinCaps, Priced, Reserved, AfterReply, RoomAfter, ReadyExactly, WorthRepeating, OnceWithMoreRoom, OnlyFailures;
    BalancedKeys(b);
    ReserveIssues(l, b, AskFor(s, p, w, n));
    var (reserved, r) := Reserved(l, b, AskFor(s, p, w, n));
    BalancedKeys(reserved);
    if r.Err? {
      NothingSent(s.spec, Ending(reserved, Refusal(r.error), []), w, n);
    } else {
      KeysStay(l, reserved, s, p, r.value, w, n);
      PassKeepsBooks(l, reserved, s, p, r.value, w, n);
      PassEnds(l, reserved, s, p, r.value, w, n);
      match AfterReply(l, reserved, s, p, r.value, w, n) {
        case Done(books, outcome) => LastSent(s.spec, Ending(books, outcome, [r.value.output]), w, n);
        case Again(books, progress) =>
          TurnEndsWell(l, books, s, progress, w, n + 1);
          OneMoreSent(s.spec, r.value.output, RequestFrom(l, books, s, progress, w, n + 1), w, n);
      }
    }
  }

  lemma NothingSent(spec: Spec, e: Ending, w: World, n: nat)
    requires e.limits == [] && !e.outcome.TurnReady?
    ensures ReadyExactly(e, w, n) && WorthRepeating(e, w, n) && OnceWithMoreRoom(spec, e, w, n) && OnlyFailures(e, w, n, 0)
  {}

  lemma LastSent(spec: Spec, e: Ending, w: World, n: nat)
    requires |e.limits| == 1
    requires match w.replies(n)
             case Failed(_) => !e.outcome.TurnReady?
             case Answered(usage, cutOff) => !e.outcome.Raised? ==> if cutOff then !e.outcome.TurnReady? else e.outcome == TurnReady(usage)
    ensures ReadyExactly(e, w, n) && WorthRepeating(e, w, n) && OnceWithMoreRoom(spec, e, w, n) && OnlyFailures(e, w, n, 0)
  {}

  lemma FailuresLater(limit: nat, rest: Ending, w: World, n: nat, from: nat)
    requires OnlyFailures(rest, w, n + 1, from)
    ensures OnlyFailures(After([limit], rest), w, n, from + 1)
  {
    forall i: nat | from + 1 <= i < |rest.limits|
      ensures ReplyTo(w, n, i).Failed?
    {
      assert ReplyTo(w, n + 1, i - 1).Failed?;
    }
  }

  lemma OneMoreSent(spec: Spec, limit: nat, rest: Ending, w: World, n: nat)
    requires ReadyExactly(rest, w, n + 1) && WorthRepeating(rest, w, n + 1) && OnceWithMoreRoom(spec, rest, w, n + 1)
    requires match w.replies(n)
             case Failed(f) => Retriable(f)
             case Answered(_, cutOff) =>
               cutOff && OnlyFailures(rest, w, n + 1, 0) && forall j | 0 <= j < |rest.limits| :: rest.limits[j] <= RoomAfter(spec, limit)
    requires rest.limits == [] ==> !rest.outcome.TurnReady? && (w.replies(n).Answered? ==> w.replies(n).cutOff)
    ensures var e := After([limit], rest);
            && ReadyExactly(e, w, n) && WorthRepeating(e, w, n) && OnceWithMoreRoom(spec, e, w, n)
            && (w.replies(n).Failed? && OnlyFailures(rest, w, n + 1, 0) ==> OnlyFailures(e, w, n, 0))
  {
    hide RoomAfter, Retriable;
    var e := After([limit], rest);
    forall i: nat | 0 < i < |e.limits|
      ensures ReplyTo(w, n, i) == ReplyTo(w, n + 1, i - 1) && e.limits[i] == rest.limits[i - 1]
    {}
    if OnlyFailures(rest, w, n + 1, 0) { FailuresLater(limit, rest, w, n, 0); }
    assert ReplyTo(w, n, 0) == w.replies(n);
    forall i: nat | i < |e.limits| - 1 && ReplyTo(w, n, i).Answered?
      ensures OnlyFailures(e, w, n, i + 1) && forall j | i < j < |e.limits| :: e.limits[j] <= RoomAfter(spec, e.limits[i])
    {
      if i > 0 {
        assert ReplyTo(w, n + 1, i - 1).Answered?;
        FailuresLater(limit, rest, w, n, i);
      }
    }
    forall i: nat | i < |e.limits| - 1
      ensures match ReplyTo(w, n, i) case Failed(f) => Retriable(f) case Answered(_, cutOff) => cutOff
    {
      if i > 0 { assert ReplyTo(w, n, i) == ReplyTo(w, n + 1, i - 1); }
    }
  }

  /** How many of the replies to a turn's first `k` requests were failures. */
  function FailedReplies(w: World, n: nat, k: nat): nat
    decreases k
  {
    if k == 0 then 0 else FailedReplies(w, n + 1, k - 1) + if w.replies(n).Failed? then 1 else 0
  }

  function CutOffReplies(w: World, n: nat, k: nat): nat
    decreases k
  {
    if k == 0 then 0 else CutOffReplies(w, n + 1, k - 1) + if w.replies(n).Answered? then 1 else 0
  }

  /** Why a turn that `k` requests did not finish was given up: the last failure cannot pass, is the
      third, would have to wait for more than two minutes or for longer than there is time; or the
      answer was cut off a second time, or at the most the model can put out. */
  predicate HasGroundsToGiveUp(spec: Spec, w: World, n: nat, k: nat, failures: nat, cutOffs: nat, limit: nat)
    requires k > 0
  {
    match w.replies(n + k - 1)
    case Failed(f) =>
      var failed := failures + FailedReplies(w, n, k);
      || !MayPass(f) || failed == 3 || (Asked(f).Some? && Asked(f).value > 120.0)
      || (failed > 0 && RetryWait(f, failed, w.jitter(n + k - 1)).Some?
          && RetryWait(f, failed, w.jitter(n + k - 1)).value >= w.secondsLeftToRetry(n + k - 1))
    case Answered(_, cutOff) =>
      cutOff && (cutOffs + CutOffReplies(w, n, k) == 2 || RoomAfter(spec, limit) <= limit)
  }

  function CutOffs(p: Progress): nat {
    if p.enlarged then 1 else 0
  }

  lemma OneReply(w: World, n: nat)
    ensures FailedReplies(w, n, 1) == if w.replies(n).Failed? then 1 else 0
    ensures CutOffReplies(w, n, 1) == if w.replies(n).Answered? then 1 else 0
  {
    assert FailedReplies(w, n + 1, 0) == 0 && CutOffReplies(w, n + 1, 0) == 0;
  }

  lemma PassGivesUp(l: Limits, b: Books, s: Setup, p: Progress, r: Reservation, w: World, n: nat)
    requires b.spent.Keys == ALL_SCOPES && p.failures < MAX_ATTEMPTS && r.output <= p.cap
    ensures var pass := AfterReply(l, b, s, p, r, w, n);
            pass.Done? && pass.outcome.LoopFailure? ==> HasGroundsToGiveUp(s.spec, w, n, 1, p.failures, CutOffs(p), r.output)
  {
    hide Settled, RetryCharged, Stretched, Delay;
    OneReply(w, n);
    match w.replies(n)
    case Failed(f) => FailuresExactly(b, p, r, f, w, n);
    case Answered(_, _) =>
  }

  lemma GroundsLater(spec: Spec, w: World, n: nat, k: nat, failures: nat, cutOffs: nat, limit: nat)
    requires k > 0
    requires HasGroundsToGiveUp(spec, w, n + 1, k, if w.replies(n).Failed? then failures + 1 else failures,
                                if w.replies(n).Answered? then cutOffs + 1 else cutOffs, limit)
    ensures HasGroundsToGiveUp(spec, w, n, k + 1, failures, cutOffs, limit)
  {
    hide RoomAfter, RetryWait, MayPass;
    assert n + 1 + k - 1 == n + (k + 1) - 1;
  }

  /** A turn is given up only on such grounds, counted from its first request. */
  lemma {:induction false} GivesUpOnGrounds(l: Limits, b: Books, s: Setup, p: Progress, w: World, n: nat)
    requires Balanced(b) && Priced(s.spec) && p.failures < MAX_ATTEMPTS && b.pending.None?
    ensures InLoop(b, s, p)
    ensures var e := RequestFrom(l, b, s, p, w, n);
            var k := |e.limits|;
            e.outcome.LoopFailure? ==> k > 0 && HasGroundsToGiveUp(s.spec, w, n, k, p.failures, CutOffs(p), e.limits[k - 1])
    decreases MAX_ATTEMPTS - p.failures + (if p.enlarged then 0 else 1)
  {
    hide Balanced, WithinCaps, Priced, Reserved, AfterReply, HasGroundsToGiveUp;
    BalancedKeys(b);
    ReserveIssues(l, b, AskFor(s, p, w, n));
    var (reserved, r) := Reserved(l, b, AskFor(s, p, w, n));
    BalancedKeys(reserved);
    if r.Ok? {
      KeysStay(l, reserved, s, p, r.value, w, n);
      PassKeepsBooks(l, reserved, s, p, r.value, w, n);
      PassGivesUp(l, reserved, s, p, r.value, w, n);
      var pass := AfterReply(l, reserved, s, p, r.value, w, n);
      if pass.Again? {
        GivesUpOnGrounds(l, pass.books, s, pass.progress, w, n + 1);
        var rest := RequestFrom(l, pass.books, s, pass.progress, w, n + 1);
        if rest.outcome.LoopFailure? {
          GroundsLater(s.spec, w, n, |rest.limits|, p.failures, CutOffs(p), rest.limits[|rest.limits| - 1]);
        }
      }
    }
  }

  lemma FirstRefusal(l: Limits, b: Books, s: Setup, cap: nat, w: World)
    requires Balanced(b) && Priced(s.spec) && b.pending.None? && b.spent.Keys == ALL_SCOPES
    requires 1 <= cap <= s.spec.maxOutputTokens && s.inputTokens >= 1
    ensures var r := Reserved(l, b, AskFor(s, Start(s.spec, cap), w, 0)).1;
            r == Err(Exhausted(Money)) ==>
              CostLeft(l, b, s.scope) < UpperBound(s.spec, s.inputTokens, if cap < 4000 then cap else 4000)
    ensures Reserved(l, b, AskFor(s, Start(s.spec, cap), w, 0)).1 == Err(Exhausted(Calls)) ==> l.maxCalls <= b.calls
  {
    hide Balanced, Priced, UpperBound, CostLeft, AffordableOutput;
    var a := AskFor(s, Start(s.spec, cap), w, 0);
    ReservationsExactly(l, b, a);
    if Reserved(l, b, a).1 == Err(Exhausted(Money)) { ReservedIsExact(l, b, a); }
  }

  /** A whole turn: it asks for at most `cap` at first and never for less than the smaller of `cap`
      and 4000, is refused for money only when that much does not fit, and is given up only after three failures, for a final one, for want of time to wait,
      or after a second cut-off answer or one with all the room there is. */
  lemma WholeTurn(l: Limits, b: Books, s: Setup, cap: nat, w: World)
    requires Balanced(b) && Priced(s.spec) && b.pending.None?
    ensures InLoop(b, s, Start(s.spec, cap))
    ensures var e := RequestFrom(l, b, s, Start(s.spec, cap), w, 0);
            var k := |e.limits|;
            && (k > 0 ==> e.limits[0] <= cap) && (forall j | 0 <= j < k :: cap <= e.limits[j] || 4000 <= e.limits[j])
            && (e.outcome.LoopFailure? ==> k > 0 && HasGroundsToGiveUp(s.spec, w, 0, k, 0, 0, e.limits[k - 1]))
            && (1 <= cap <= s.spec.maxOutputTokens && s.inputTokens >= 1 ==>
                  && e.outcome != Raised(BadArguments)
                  && (k == 0 && e.outcome == DidNotFinish(false) ==>
                        l.maxCalls <= b.calls
                        || CostLeft(l, b, s.scope) < UpperBound(s.spec, s.inputTokens, if cap < 4000 then cap else 4000)))
  {
    hide Balanced, Priced, HasGroundsToGiveUp, AfterReply, UpperBound, CostLeft, Affordable;
    if 1 <= cap <= s.spec.maxOutputTokens && s.inputTokens >= 1 {
      NeverBadArguments(l, b, s, Start(s.spec, cap), w, 0);
      BalancedKeys(b);
      FirstRefusal(l, b, s, cap, w);
    }
    GivesUpOnGrounds(l, b, s, Start(s.spec, cap), w, 0);
    CutOffTurnsGetMoreRoom(l, b, s, Start(s.spec, cap), w, 0);
    ReserveIssues(l, b, AskFor(s, Start(s.spec, cap), w, 0));
  }

  /** The limits the loop asks for are always ones the budget accepts. */
  lemma {:induction false} NeverBadArguments(l: Limits, b: Books, s: Setup, p: Progress, w: World, n: nat)
    requires Balanced(b) && Priced(s.spec) && p.failures < MAX_ATTEMPTS && b.pending.None?
    requires s.inputTokens >= 1 && 1 <= p.minimum <= p.cap <= s.spec.maxOutputTokens
    ensures InLoop(b, s, p)
    ensures RequestFrom(l, b, s, p, w, n).outcome != Raised(BadArguments)
    ensures RequestFrom(l, b, s, p, w, n).outcome != Raised(Unresolved)
    ensures RequestFrom(l, b, s, p, w, n).outcome != Raised(NoPending)
    decreases MAX_ATTEMPTS - p.failures + (if p.enlarged then 0 else 1)
  {
    hide Balanced, WithinCaps, Priced;
    BalancedKeys(b);
    ReserveIssues(l, b, AskFor(s, p, w, n));
    var (reserved, r) := Reserved(l, b, AskFor(s, p, w, n));
    assert r.Err? ==> r.error != BadArguments && r.error != Unresolved && r.error != NoPending;
    BalancedKeys(reserved);
    if r.Ok? {
      KeysStay(l, reserved, s, p, r.value, w, n);
      PassKeepsBooks(l, reserved, s, p, r.value, w, n);
      var pass := AfterReply(l, reserved, s, p, r.value, w, n);
      hide Reserved, AfterReply;
      if pass.Again? { NeverBadArguments(l, pass.books, s, pass.progress, w, n + 1); }
    }
  }

  // ---------------------------------------------------------------- the Python loop

  lemma RequestStep(l: Limits, b: Books, s: Setup, p: Progress, w: World, n: nat)
    requires InLoop(b, s, p)
    ensures var (reserved, r) := Reserved(l, b, AskFor(s, p, w, n));
            && reserved.spent.Keys == ALL_SCOPES
            && if r.Err? then RequestFrom(l, b, s, p, w, n) == Ending(reserved, Refusal(r.error), [])
               else
                 match AfterReply(l, reserved, s, p, r.value, w, n)
                 case Done(books, outcome) => RequestFrom(l, b, s, p, w, n) == Ending(books, outcome, [r.value.output])
                 case Again(books, progress) =>
                   && InLoop(books, s, progress)
                   && RequestFrom(l, b, s, p, w, n) == After([r.value.output], RequestFrom(l, books, s, progress, w, n + 1))
  {
    var (reserved, r) := Reserved(l, b, AskFor(s, p, w, n));
    hide Reserved, AfterReply;
    if r.Ok? { KeysStay(l, reserved, s, p, r.value, w, n); }
  }

  method Request(budget: RunBudget, s: Setup, cap: nat, w: World) returns (outcome: Outcome, limits: seq<nat>)
    requires budget.Valid() && Priced(s.spec) && budget.modelReservation.None?
    modifies budget
    ensures budget.Valid()
    ensures InLoop(old(budget.Now()), s, Start(s.spec, cap))
    ensures Ending(budget.Now(), outcome, limits) == RequestFrom(budget.limits, old(budget.Now()), s, Start(s.spec, cap), w, 0)
  {
    hide Balanced, WithinCaps, Priced, Reserved, RetryWait, RequestFrom, Settled, RetryCharged, RecordFailure, LargerCap, Refusal;
    var l := budget.limits;
    var p := Start(s.spec, cap);
    var n: nat := 0;
    BalancedKeys(budget.Now());
    ghost var all := RequestFrom(l, budget.Now(), s, p, w, 0);
    limits := [];
    while true
      invariant budget.Valid() && budget.modelReservation.None? && InLoop(budget.Now(), s, p)
      invariant all == After(limits, RequestFrom(l, budget.Now(), s, p, w, n))
      decreases MAX_ATTEMPTS - p.failures + (if p.enlarged then 0 else 1)
    {
      ReserveIssues(l, budget.Now(), AskFor(s, p, w, n));
      RequestStep(l, budget.Now(), s, p, w, n);
      var reserved := budget.Reserve(AskFor(s, p, w, n));
      if reserved.Err? {
        assert limits + [] == limits;
        return Refusal(reserved.error), limits;
      }
      var r := reserved.value;
      ghost var sent := budget.Now();
      BalancedKeys(sent);
      KeysStay(l, sent, s, p, r, w, n);
      PassKeepsBooks(l, sent, s, p, r, w, n);
      ghost var before := limits;
      limits := limits + [r.output];
      match w.replies(n) {
        case Failed(f) =>
          if RecordFailure(budget.Now(), r, w.owned(n)).Err? {
            return Raised(RecordFailure(budget.Now(), r, w.owned(n)).error), limits;
          }
          if f.Broken? { return LoopFailure, limits; }
          var wait := RetryWait(f, p.failures + 1, w.jitter(n));
          if wait.None? || wait.value >= w.secondsLeftToRetry(n) { return LoopFailure, limits; }
          var charged := budget.ChargeForRetry(r, w.owned(n));
          if charged.Err? { return Raised(charged.error), limits; }
          p := p.(failures := p.failures + 1);
        case Answered(usage, cutOff) =>
          var settled := budget.Settle(r, usage, w.owned(n), w.clear(n));
          if settled.Err? { return Raised(settled.error), limits; }
          if !cutOff { return TurnReady(usage), limits; }
          if r.output < p.cap { return DidNotFinish(false), limits; }
          var larger := LargerCap(s.spec, p.cap);
          if p.enlarged || larger <= p.cap { return LoopFailure, limits; }
          p := Progress(larger, p.cap + 1, p.failures, true);
      }
      AfterOne(before, r.output, RequestFrom(l, budget.Now(), s, p, w, n + 1));
      n := n + 1;
    }
  }

  function After(limits: seq<nat>, rest: Ending): Ending {
    rest.(limits := limits + rest.limits)
  }

  lemma AfterOne(limits: seq<nat>, one: nat, rest: Ending)
    ensures After(limits, After([one], rest)) == After(limits + [one], rest)
  {
    assert limits + ([one] + rest.limits) == (limits + [one]) + rest.limits;
  }
}
