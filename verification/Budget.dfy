/** One run's model budget: reservations, charges and the phases' shares of the cost cap. */
module Budget {
  import opened Results
  import opened Pricing

  datatype Scope = Setup | Agent | Critic | Triage

  /** The most a phase may spend, as a share of the run's cap. */
  function CapShare(s: Scope): Option<real> {
    match s
    case Setup => Some(0.15)
    case Agent => Some(0.55)
    case Critic => None
    case Triage => Some(0.10)
  }

  /** The share of the cap that the other phases leave for the critic. */
  const CRITIC_FLOOR := 0.20

  const MAX_TURN_SECONDS := 600.0

  datatype Reservation = Reservation(call: nat, scope: Scope, spec: Spec, input: nat, output: nat, cost: real, timeout: real)

  /** What one model call was charged; `inFull` when its reservation was charged unseen. */
  datatype Charge = Charge(call: nat, scope: Scope, input: nat, output: nat, cost: real, inFull: bool)

  /** The manifest's totals, what each scope spent, and the log of reservations and charges. */
  datatype Books = Books(
    calls: nat, inputTokens: nat, outputTokens: nat, cost: real,
    pending: Option<Reservation>, spent: map<Scope, real>,
    issued: seq<Reservation>, charges: seq<Charge>)

  datatype Limits = Limits(maxCost: real, maxCalls: nat)

  datatype Limit = Calls | Time | Money

  datatype BudgetError =
    | BadArguments | NotAllowed | Unresolved | NoPending | BadUsage | BreakerOpen
    | Exhausted(limit: Limit) | Overrun

  const ALL_SCOPES: set<Scope> := {Setup, Agent, Critic, Triage}

  function NewBooks(): Books {
    Books(0, 0, 0, 0.0, None, map s | s in ALL_SCOPES :: 0.0, [], [])
  }

  // ---------------------------------------------------------------- the operations

  function PendingCost(b: Books): real {
    match b.pending case None => 0.0 case Some(r) => r.cost
  }

  function Min(a: real, b: real): real {
    if b < a then b else a
  }

  /** What a scope may still spend. */
  function CostLeft(l: Limits, b: Books, s: Scope): real
    requires b.spent.Keys == ALL_SCOPES
  {
    var left := l.maxCost - b.cost - PendingCost(b);
    var capped := match CapShare(s) case None => left case Some(share) => Min(left, share * l.maxCost - b.spent[s]);
    Max(0.0, capped)
  }

  /** One request for a reservation; `allowed` when the circuit breaker is clear and the lease held. */
  datatype Ask = Ask(scope: Scope, spec: Spec, input: nat, maxOutput: nat, minOutput: nat, secondsLeft: real, allowed: bool)

  function AffordableOutput(l: Limits, b: Books, a: Ask): int
    requires b.spent.Keys == ALL_SCOPES && Priced(a.spec)
  {
    var affordable := Affordable(a.spec, a.input, CostLeft(l, b, a.scope));
    if affordable < a.maxOutput then affordable else a.maxOutput
  }

  function Reserved(l: Limits, b: Books, a: Ask): (Books, Result<Reservation, BudgetError>)
    requires b.spent.Keys == ALL_SCOPES && Priced(a.spec)
  {
    if a.input < 1 || !(1 <= a.minOutput <= a.maxOutput) || a.maxOutput > a.spec.maxOutputTokens then (b, Err(BadArguments))
    else if !a.allowed then (b, Err(NotAllowed))
    else if b.pending.Some? then (b, Err(Unresolved))
    else if b.calls >= l.maxCalls then (b, Err(Exhausted(Calls)))
    else if a.secondsLeft < 1.0 then (b, Err(Exhausted(Time)))
    else
      var output := AffordableOutput(l, b, a);
      if output < a.minOutput then (b, Err(Exhausted(Money)))
      else
        var r := Reservation(b.calls + 1, a.scope, a.spec, a.input, output, UpperBound(a.spec, a.input, output),
                             Min(MAX_TURN_SECONDS, a.secondsLeft));
        (b.(calls := r.call, pending := Some(r), issued := b.issued + [r]), Ok(r))
  }

  predicate IsPending(b: Books, r: Reservation) {
    b.pending.Some? && b.pending.value.call == r.call
  }

  lemma EveryScope(s: Scope)
    ensures s in ALL_SCOPES
  {}

  function Charged(b: Books, c: Charge): Books
    requires b.spent.Keys == ALL_SCOPES
  {
    EveryScope(c.scope);
    b.(inputTokens := b.inputTokens + c.input, outputTokens := b.outputTokens + c.output, cost := b.cost + c.cost,
       pending := None, spent := b.spent[c.scope := b.spent[c.scope] + c.cost], charges := b.charges + [c])
  }

  function InFull(r: Reservation): Charge {
    Charge(r.call, r.scope, r.input, r.output, r.cost, true)
  }

  predicate Exceeds(usage: Usage, r: Reservation) {
    usage.input > r.input || usage.output > r.output
  }

  /** `settle`; `owned` when the lease is held, `clear` when the circuit breaker is. */
  function Settled(l: Limits, b: Books, r: Reservation, usage: Usage, owned: bool, clear: bool): (Books, Result<real, BudgetError>)
    requires b.spent.Keys == ALL_SCOPES
  {
    if !IsPending(b, r) then (b, Err(NoPending))
    else if !owned then (b, Err(NotAllowed))
    else
      match Cost(r.spec, usage)
      case None => (b, Err(BadUsage))
      case Some(actual) =>
        var after := Charged(b, Charge(r.call, r.scope, usage.input, usage.output, actual, false));
        if Exceeds(usage, r) || after.cost > l.maxCost then (after, Err(Overrun))
        else if !clear then (after, Err(BreakerOpen))
        else (after, Ok(actual))
  }

  /** `record_failure`: the reservation stays. */
  function RecordFailure(b: Books, r: Reservation, owned: bool): Result<nat, BudgetError> {
    if !IsPending(b, r) then Err(NoPending) else if !owned then Err(NotAllowed) else Ok(r.call)
  }

  function RetryCharged(b: Books, r: Reservation, owned: bool): (Books, Result<nat, BudgetError>)
    requires b.spent.Keys == ALL_SCOPES
  {
    if !IsPending(b, r) then (b, Err(NoPending))
    else if !owned then (b, Err(NotAllowed))
    else (Charged(b, InFull(r)), Ok(r.call))
  }

  function FailureCharged(b: Books, owned: bool): (Books, Result<nat, BudgetError>)
    requires b.spent.Keys == ALL_SCOPES
  {
    match b.pending
    case None => (b, Ok(0))
    case Some(r) => if !owned then (b, Err(NotAllowed)) else (Charged(b, InFull(r)), Ok(r.call))
  }

  // ---------------------------------------------------------------- the invariant

  function InputOf(charges: seq<Charge>): nat {
    if charges == [] then 0 else InputOf(charges[..|charges| - 1]) + charges[|charges| - 1].input
  }

  function OutputOf(charges: seq<Charge>): nat {
    if charges == [] then 0 else OutputOf(charges[..|charges| - 1]) + charges[|charges| - 1].output
  }

  function CostOf(charges: seq<Charge>): real {
    if charges == [] then 0.0 else CostOf(charges[..|charges| - 1]) + charges[|charges| - 1].cost
  }

  function SpentBy(charges: seq<Charge>, s: Scope): real {
    if charges == [] then 0.0
    else
      var last := charges[|charges| - 1];
      SpentBy(charges[..|charges| - 1], s) + if last.scope == s then last.cost else 0.0
  }

  /** Each call is reserved once and, unless it is the pending one, charged once, in order; the
      totals are the sums of the charges. */
  predicate Balanced(b: Books) {
    && b.spent.Keys == ALL_SCOPES
    && |b.issued| == b.calls
    && (forall k | 0 <= k < b.calls :: b.issued[k].call == k + 1)
    && (if b.pending.None? then |b.charges| == b.calls
        else |b.charges| + 1 == b.calls && b.pending.value == b.issued[b.calls - 1])
    && (forall k | 0 <= k < |b.charges| :: ChargeOf(b.charges[k], b.issued[k]))
    && b.inputTokens == InputOf(b.charges) && b.outputTokens == OutputOf(b.charges) && b.cost == CostOf(b.charges)
    && (forall s | s in ALL_SCOPES :: b.spent[s] == SpentBy(b.charges, s))
  }

  /** A charge settles the actual usage of its reservation or charges all of it. */
  predicate ChargeOf(c: Charge, r: Reservation) {
    c.call == r.call && c.scope == r.scope && (c.inFull ==> c == InFull(r))
  }

  /** The pending reservation counts against its own scope. */
  function Committed(b: Books, s: Scope): real
    requires s in b.spent
  {
    b.spent[s] + if b.pending.Some? && b.pending.value.scope == s then b.pending.value.cost else 0.0
  }

  /** A reservation is the worst case of what it reserved. */
  predicate WorstCase(r: Reservation) {
    Priced(r.spec) && r.cost == UpperBound(r.spec, r.input, r.output)
  }

  /** The run and every capped scope stay within what they may spend. */
  predicate WithinCaps(l: Limits, b: Books)
    requires b.spent.Keys == ALL_SCOPES
  {
    && b.cost + PendingCost(b) <= l.maxCost
    && (forall s | s in ALL_SCOPES && CapShare(s).Some? :: Committed(b, s) <= CapShare(s).value * l.maxCost)
    && forall k | 0 <= k < |b.issued| :: WorstCase(b.issued[k])
  }

  lemma NewBooksBalance(l: Limits)
    requires l.maxCost > 0.0
    ensures Balanced(NewBooks()) && WithinCaps(l, NewBooks())
  {}

  lemma {:induction false} SpendsSum(charges: seq<Charge>)
    ensures CostOf(charges) == SpentBy(charges, Setup) + SpentBy(charges, Agent) + SpentBy(charges, Critic) + SpentBy(charges, Triage)
    decreases |charges|
  {
    if charges != [] { SpendsSum(charges[..|charges| - 1]); }
  }

  lemma ChargeBalances(b: Books, c: Charge)
    requires Balanced(b) && b.pending.Some? && ChargeOf(c, b.pending.value)
    ensures Balanced(Charged(b, c))
  {
    var after := Charged(b, c);
    assert after.charges[..|b.charges|] == b.charges;
  }

  lemma PendingIsIssued(b: Books, r: Reservation)
    requires Balanced(b) && r in b.issued && IsPending(b, r)
    ensures b.pending == Some(r)
  {}

  lemma ReserveKeeps(l: Limits, b: Books, a: Ask)
    requires Balanced(b) && WithinCaps(l, b) && Priced(a.spec)
    ensures var (after, r) := Reserved(l, b, a); Balanced(after) && WithinCaps(l, after)
  {
    var (after, r) := Reserved(l, b, a);
    if r.Ok? {
      AffordableIsExact(a.spec, a.input, r.value.output, CostLeft(l, b, a.scope));
      hide UpperBound, Affordable, Priced;
      assert r.value.cost <= CostLeft(l, b, a.scope);
      forall s | s in ALL_SCOPES && CapShare(s).Some?
        ensures Committed(after, s) <= CapShare(s).value * l.maxCost
      {
        assert Committed(b, s) <= CapShare(s).value * l.maxCost;
      }
    }
  }

  /** A request that nothing else refuses is refused exactly when its smallest useful size does not
      fit in what the scope has left, and else gets the largest output limit that does. */
  lemma ReservedIsExact(l: Limits, b: Books, a: Ask)
    requires Balanced(b) && Priced(a.spec) && a.allowed && b.pending.None? && b.calls < l.maxCalls && a.secondsLeft >= 1.0
    requires a.input >= 1 && 1 <= a.minOutput <= a.maxOutput <= a.spec.maxOutputTokens
    ensures var (r, left) := (Reserved(l, b, a).1, CostLeft(l, b, a.scope));
            && (r.Ok? <==> UpperBound(a.spec, a.input, a.minOutput) <= left)
            && (r.Err? ==> r.error == Exhausted(Money))
            && (r.Ok? ==>
                  && r.value.cost == UpperBound(a.spec, a.input, r.value.output) <= left
                  && a.minOutput <= r.value.output <= a.maxOutput
                  && (r.value.output < a.maxOutput ==> UpperBound(a.spec, a.input, r.value.output + 1) > left))
  {
    BalancedKeys(b);
    var left := CostLeft(l, b, a.scope);
    AffordableIsExact(a.spec, a.input, a.minOutput, left);
    var r := Reserved(l, b, a).1;
    if r.Ok? {
      AffordableIsExact(a.spec, a.input, r.value.output, left);
      AffordableIsExact(a.spec, a.input, r.value.output + 1, left);
    }
    hide UpperBound, Affordable, Priced, Balanced, CostLeft;
  }

  /** Condition `k` holds and none before it does. */
  predicate First(conditions: seq<bool>, k: nat) {
    k < |conditions| && conditions[k] && forall j | 0 <= j < k :: !conditions[j]
  }

  /** A refused reservation names the first thing that stands against it and changes nothing; a
      granted one is pending with the next number, its worst-case cost, and the time it may take. */
  lemma ReservationsExactly(l: Limits, b: Books, a: Ask)
    requires b.spent.Keys == ALL_SCOPES && Priced(a.spec)
    ensures var (after, r) := Reserved(l, b, a);
            var against := [a.input == 0 || a.minOutput == 0 || a.maxOutput < a.minOutput || a.spec.maxOutputTokens < a.maxOutput,
                            !a.allowed, b.pending != None, l.maxCalls <= b.calls, a.secondsLeft < 1.0,
                            AffordableOutput(l, b, a) < a.minOutput];
            && (r == Err(BadArguments) <==> First(against, 0))
            && (r == Err(NotAllowed) <==> First(against, 1))
            && (r == Err(Unresolved) <==> First(against, 2))
            && (r == Err(Exhausted(Calls)) <==> First(against, 3))
            && (r == Err(Exhausted(Time)) <==> First(against, 4))
            && (r == Err(Exhausted(Money)) <==> First(against, 5))
            && (r.Err? <==> exists k: nat :: First(against, k))
            && (r.Err? ==> after == b)
            && (r.Ok? ==>
                  && var output := AffordableOutput(l, b, a);
                     r.value == Reservation(b.calls + 1, a.scope, a.spec, a.input, output, UpperBound(a.spec, a.input, output),
                                            if a.secondsLeft < 600.0 then a.secondsLeft else 600.0)
                     && after == b.(calls := b.calls + 1, pending := Some(r.value), issued := b.issued + [r.value]))
  {
    hide AffordableOutput, UpperBound, Priced;
    var against := [a.input == 0 || a.minOutput == 0 || a.maxOutput < a.minOutput || a.spec.maxOutputTokens < a.maxOutput,
                    !a.allowed, b.pending != None, l.maxCalls <= b.calls, a.secondsLeft < 1.0,
                    AffordableOutput(l, b, a) < a.minOutput];
    assert forall k: nat | First(against, k) :: k < 6 && against[k];
    if against[0] { assert First(against, 0); }
    else if against[1] { assert First(against, 1); }
    else if against[2] { assert First(against, 2); }
    else if against[3] { assert First(against, 3); }
    else if against[4] { assert First(against, 4); }
    else if against[5] { assert First(against, 5); }
  }

  /** The books after a charge of the pending reservation: one more charge, and nothing pending. */
  predicate OneMoreCharge(b: Books, after: Books, c: Charge) {
    && after.charges == b.charges + [c] && after.pending == None
    && after.calls == b.calls && after.issued == b.issued
  }

  /** Settling is refused without effect when the reservation is not the pending one, the lease is
      not held or the usage contradicts itself; else the usage is charged, and fails afterwards for
      an overrun or an open circuit breaker only. */
  lemma SettlementsExactly(l: Limits, b: Books, r: Reservation, usage: Usage, owned: bool, clear: bool)
    requires b.spent.Keys == ALL_SCOPES
    ensures var (after, result) := Settled(l, b, r, usage, owned, clear);
            var pending := b.pending.Some? && b.pending.value.call == r.call;
            var charged := pending && owned && usage.cached + usage.written <= usage.input;
            && (result == Err(NoPending) <==> !pending)
            && (result == Err(NotAllowed) <==> pending && !owned)
            && (result == Err(BadUsage) <==> pending && owned && usage.input < usage.cached + usage.written)
            && (!charged ==> after == b)
            && (charged ==>
                  && var actual := Cost(r.spec, usage).value;
                     OneMoreCharge(b, after, Charge(r.call, r.scope, usage.input, usage.output, actual, false))
                     && var over := r.input < usage.input || r.output < usage.output || l.maxCost < after.cost;
                        result == if over then Err(Overrun) else if clear then Ok(actual) else Err(BreakerOpen))
  {
    hide Paid, TierRates;
  }

  /** A failed request is recorded, and charged in full, exactly when its reservation is the pending
      one and the lease is held; a failed phase charges whatever is pending. */
  lemma FullChargesExactly(b: Books, r: Reservation, owned: bool)
    requires b.spent.Keys == ALL_SCOPES
    ensures var pending := b.pending.Some? && b.pending.value.call == r.call;
            var (retried, retry) := RetryCharged(b, r, owned);
            && retry == RecordFailure(b, r, owned)
            && retry == (if !pending then Err(NoPending) else if owned then Ok(r.call) else Err(NotAllowed))
            && if retry.Ok? then OneMoreCharge(b, retried, Charge(r.call, r.scope, r.input, r.output, r.cost, true)) else retried == b
    ensures var (after, result) := FailureCharged(b, owned);
            && (b.pending.None? ==> after == b && result == Ok(0))
            && (b.pending.Some? ==>
                  && var p := b.pending.value;
                     result == (if owned then Ok(p.call) else Err(NotAllowed))
                     && if owned then OneMoreCharge(b, after, Charge(p.call, p.scope, p.input, p.output, p.cost, true)) else after == b)
  {}

  lemma ChargeCommitsNoMore(b: Books, c: Charge, s: Scope)
    requires b.spent.Keys == ALL_SCOPES && s in ALL_SCOPES && b.pending.Some?
    requires c.scope == b.pending.value.scope && c.cost <= b.pending.value.cost
    ensures Charged(b, c).spent.Keys == ALL_SCOPES && Committed(Charged(b, c), s) <= Committed(b, s)
  {
    EveryScope(c.scope);
  }

  lemma ChargedCost(b: Books, c: Charge)
    requires b.spent.Keys == ALL_SCOPES
    ensures var after := Charged(b, c); after.cost == b.cost + c.cost && after.pending.None? && after.issued == b.issued
  {}

  /** A charge that is no more than the reservation it settles stays within every cap. */
  lemma ChargeStaysWithin(l: Limits, b: Books, c: Charge)
    requires Balanced(b) && WithinCaps(l, b) && b.pending.Some? && ChargeOf(c, b.pending.value) && c.cost <= b.pending.value.cost
    ensures Charged(b, c).spent.Keys == ALL_SCOPES
    ensures WithinCaps(l, Charged(b, c)) && Charged(b, c).cost <= l.maxCost
  {
    BalancedKeys(b);
    ChargedCost(b, c);
    var after := Charged(b, c);
    ChargeCommitsNoMore(b, c, c.scope);
    forall s | s in ALL_SCOPES && CapShare(s).Some?
      ensures Committed(after, s) <= CapShare(s).value * l.maxCost
    {
      ChargeCommitsNoMore(b, c, s);
      CapOf(l, b, s);
      hide Committed, CapShare, WithinCaps;
    }
    hide WorstCase, Balanced, Committed, Charged, CapShare;
  }

  lemma CapOf(l: Limits, b: Books, s: Scope)
    requires b.spent.Keys == ALL_SCOPES && WithinCaps(l, b) && s in ALL_SCOPES && CapShare(s).Some?
    ensures Committed(b, s) <= CapShare(s).value * l.maxCost
  {}

  /** A usage within its reservation is never an overrun: the run's cap cannot be what fails. */
  lemma OverrunMeansExceeded(l: Limits, b: Books, r: Reservation, usage: Usage, owned: bool, clear: bool)
    requires Balanced(b) && WithinCaps(l, b) && r in b.issued
    ensures Settled(l, b, r, usage, owned, clear).1 == Err(Overrun) <==>
            IsPending(b, r) && owned && Cost(r.spec, usage).Some? && Exceeds(usage, r)
  {
    if IsPending(b, r) && owned && Cost(r.spec, usage).Some? && !Exceeds(usage, r) {
      PendingIsIssued(b, r);
      ActualIsCovered(l, b, r, usage);
    }
    hide Cost, Balanced;
  }

  lemma ActualIsCovered(l: Limits, b: Books, r: Reservation, usage: Usage)
    requires Balanced(b) && WithinCaps(l, b) && b.pending == Some(r) && Cost(r.spec, usage).Some? && !Exceeds(usage, r)
    ensures Cost(r.spec, usage).value <= r.cost && b.cost + Cost(r.spec, usage).value <= l.maxCost
  {
    hide Cost, UpperBound, Priced;
    assert WorstCase(b.issued[b.calls - 1]);
    ReservationCovers(r.spec, usage, r.input, r.output);
  }

  lemma SettleKeeps(l: Limits, b: Books, r: Reservation, usage: Usage, owned: bool, clear: bool)
    requires Balanced(b) && r in b.issued
    ensures var (after, result) := Settled(l, b, r, usage, owned, clear);
            Balanced(after) && (WithinCaps(l, b) && result != Err(Overrun) ==> WithinCaps(l, after))
  {
    hide Balanced, WithinCaps, Cost, Charged;
    BalancedKeys(b);
    if IsPending(b, r) && owned && Cost(r.spec, usage).Some? {
      PendingIsIssued(b, r);
      var c := Charge(r.call, r.scope, usage.input, usage.output, Cost(r.spec, usage).value, false);
      ChargeBalances(b, c);
      if WithinCaps(l, b) && !Exceeds(usage, r) {
        ActualIsCovered(l, b, r, usage);
        ChargeStaysWithin(l, b, c);
      }
    }
  }

  lemma FullChargeKeeps(l: Limits, b: Books)
    requires Balanced(b) && b.pending.Some?
    ensures var after := Charged(b, InFull(b.pending.value)); Balanced(after) && (WithinCaps(l, b) ==> WithinCaps(l, after))
  {
    ChargeBalances(b, InFull(b.pending.value));
    if WithinCaps(l, b) { ChargeStaysWithin(l, b, InFull(b.pending.value)); }
  }

  // ---------------------------------------------------------------- every run

  /** One call of the budget's interface; a reservation is named by its call number. */
  datatype Op =
    | DoReserve(ask: Ask)
    | DoSettle(call: nat, usage: Usage, owned: bool, clear: bool)
    | DoRecordFailure(call: nat, owned: bool)
    | DoChargeForRetry(call: nat, owned: bool)
    | DoChargeFailedRequest(owned: bool)

  predicate Applies(b: Books, op: Op) {
    match op
    case DoReserve(a) => Priced(a.spec)
    case DoSettle(call, _, _, _) => 1 <= call <= |b.issued|
    case DoRecordFailure(call, _) => 1 <= call <= |b.issued|
    case DoChargeForRetry(call, _) => 1 <= call <= |b.issued|
    case DoChargeFailedRequest(_) => true
  }

  function Apply(l: Limits, b: Books, op: Op): (Books, bool)
    requires b.spent.Keys == ALL_SCOPES && Applies(b, op)
  {
    match op
    case DoReserve(a) => (Reserved(l, b, a).0, false)
    case DoSettle(call, usage, owned, clear) =>
      var (after, r) := Settled(l, b, b.issued[call - 1], usage, owned, clear); (after, r == Err(Overrun))
    case DoRecordFailure(_, _) => (b, false)
    case DoChargeForRetry(call, owned) => (RetryCharged(b, b.issued[call - 1], owned).0, false)
    case DoChargeFailedRequest(owned) => (FailureCharged(b, owned).0, false)
  }

  lemma ApplyKeeps(l: Limits, b: Books, op: Op)
    requires Balanced(b) && Applies(b, op)
    ensures var (after, overrun) := Apply(l, b, op);
            Balanced(after) && (WithinCaps(l, b) && !overrun ==> WithinCaps(l, after))
  {
    hide Balanced, WithinCaps, Reserved, Settled, Charged;
    BalancedKeys(b);
    match op
    case DoReserve(a) =>
      ReserveBalances(l, b, a);
      if WithinCaps(l, b) { ReserveKeeps(l, b, a); }
    case DoSettle(call, usage, owned, clear) => SettleKeeps(l, b, b.issued[call - 1], usage, owned, clear);
    case DoRecordFailure(_, _) =>
    case DoChargeForRetry(call, owned) =>
      if IsPending(b, b.issued[call - 1]) {
        PendingIsIssued(b, b.issued[call - 1]);
        FullChargeKeeps(l, b);
      }
    case DoChargeFailedRequest(owned) =>
      if b.pending.Some? { FullChargeKeeps(l, b); }
  }

  lemma ReserveBalances(l: Limits, b: Books, a: Ask)
    requires Balanced(b) && Priced(a.spec)
    ensures Balanced(Reserved(l, b, a).0)
  {
    hide Priced, UpperBound, Affordable;
  }

  /** Whether the calls can be made one after another. */
  predicate Playable(l: Limits, b: Books, ops: seq<Op>)
    requires b.spent.Keys == ALL_SCOPES
    decreases |ops|
  {
    ops == [] || (Applies(b, ops[0]) && Apply(l, b, ops[0]).0.spent.Keys == ALL_SCOPES && Playable(l, Apply(l, b, ops[0]).0, ops[1..]))
  }

  /** The books after a run, and whether some `settle` failed it for an overrun. */
  function Play(l: Limits, b: Books, ops: seq<Op>): (Books, bool)
    requires b.spent.Keys == ALL_SCOPES && Playable(l, b, ops)
    decreases |ops|
  {
    if ops == [] then (b, false)
    else
      var (next, overrun) := Apply(l, b, ops[0]);
      var (end, later) := Play(l, next, ops[1..]);
      (end, overrun || later)
  }

  lemma {:induction false} PlayKeeps(l: Limits, b: Books, ops: seq<Op>)
    requires Balanced(b) && Playable(l, b, ops)
    ensures var (end, overrun) := Play(l, b, ops);
            Balanced(end) && (WithinCaps(l, b) && !overrun ==> WithinCaps(l, end))
    decreases |ops|
  {
    hide Balanced, WithinCaps, Apply, Applies;
    assert Balanced(b) ==> b.spent.Keys == ALL_SCOPES by { BalancedKeys(b); }
    if ops != [] {
      ApplyKeeps(l, b, ops[0]);
      BalancedKeys(Apply(l, b, ops[0]).0);
      PlayKeeps(l, Apply(l, b, ops[0]).0, ops[1..]);
    }
  }

  lemma BalancedKeys(b: Books)
    requires Balanced(b)
    ensures b.spent.Keys == ALL_SCOPES
  {}

  /** Any sequence of calls on a new budget: the books balance, the scopes' spends sum to the
      run's, and unless an overrun failed the run, charged cost plus the pending reservation stays
      within the cap and each capped scope within its share. */
  lemma EveryRunIsSound(l: Limits, ops: seq<Op>)
    requires l.maxCost > 0.0 && Playable(l, NewBooks(), ops)
    ensures var (b, overrun) := Play(l, NewBooks(), ops);
            && Balanced(b)
            && b.cost == b.spent[Setup] + b.spent[Agent] + b.spent[Critic] + b.spent[Triage]
            && (!overrun ==> WithinCaps(l, b))
            && (!overrun && b.pending.None? ==> CostLeft(l, b, Critic) >= CRITIC_FLOOR * l.maxCost - b.spent[Critic])
  {
    hide Play, Playable, CostOf, SpentBy, InputOf, OutputOf;
    NewBooksBalance(l);
    PlayKeeps(l, NewBooks(), ops);
    var (b, overrun) := Play(l, NewBooks(), ops);
    SpendsSum(b.charges);
    if !overrun && b.pending.None? {
      assert Committed(b, Setup) <= 0.15 * l.maxCost && Committed(b, Agent) <= 0.55 * l.maxCost && Committed(b, Triage) <= 0.10 * l.maxCost;
    }
  }

  // ---------------------------------------------------------------- the class

  class RunBudget {
    const limits: Limits
    var modelCalls: nat
    var modelInputTokens: nat
    var modelOutputTokens: nat
    var modelCost: real
    var modelReservation: Option<Reservation>
    var spent: map<Scope, real>
    /** Every reservation and every charge saved so far. */
    var issued: seq<Reservation>
    var charges: seq<Charge>

    function Now(): Books
      reads this
    {
      Books(modelCalls, modelInputTokens, modelOutputTokens, modelCost, modelReservation, spent, issued, charges)
    }

    ghost predicate Valid()
      reads this
    {
      limits.maxCost > 0.0 && Balanced(Now())
    }

    constructor (limits: Limits)
      requires limits.maxCost > 0.0
      ensures Valid() && Now() == NewBooks() && this.limits == limits
    {
      this.limits := limits;
      modelCalls, modelInputTokens, modelOutputTokens, modelCost := 0, 0, 0, 0.0;
      modelReservation, issued, charges := None, [], [];
      spent := map s | s in ALL_SCOPES :: 0.0;
      new;
      NewBooksBalance(limits);
    }

    method Reserve(a: Ask) returns (r: Result<Reservation, BudgetError>)
      requires Valid() && Priced(a.spec)
      modifies this
      ensures Valid() && (Now(), r) == Reserved(limits, old(Now()), a)
      ensures WithinCaps(limits, old(Now())) ==> WithinCaps(limits, Now())
    {
      ReserveBalances(limits, Now(), a);
      if WithinCaps(limits, Now()) { ReserveKeeps(limits, Now(), a); }
      hide Balanced, WithinCaps, Priced, UpperBound, Affordable, CostLeft;
      if a.input < 1 || !(1 <= a.minOutput <= a.maxOutput) || a.maxOutput > a.spec.maxOutputTokens { return Err(BadArguments); }
      if !a.allowed { return Err(NotAllowed); }
      if modelReservation.Some? { return Err(Unresolved); }
      if modelCalls >= limits.maxCalls { return Err(Exhausted(Calls)); }
      if a.secondsLeft < 1.0 { return Err(Exhausted(Time)); }
      var left := CostLeft(limits, Now(), a.scope);
      var affordable := Affordable(a.spec, a.input, left);
      var output := if affordable < a.maxOutput then affordable else a.maxOutput;
      if output < a.minOutput { return Err(Exhausted(Money)); }
      var reserved := UpperBound(a.spec, a.input, output);
      modelCalls := modelCalls + 1;
      var made := Reservation(modelCalls, a.scope, a.spec, a.input, output, reserved, Min(MAX_TURN_SECONDS, a.secondsLeft));
      modelReservation := Some(made);
      issued := issued + [made];
      return Ok(made);
    }

    /** The lines that every charge runs: the totals, the scope's spend and the cleared reservation. */
    method Book(c: Charge)
      requires spent.Keys == ALL_SCOPES
      modifies this
      ensures Now() == Charged(old(Now()), c)
    {
      EveryScope(c.scope);
      modelInputTokens := modelInputTokens + c.input;
      modelOutputTokens := modelOutputTokens + c.output;
      modelCost := modelCost + c.cost;
      modelReservation := None;
      spent := spent[c.scope := spent[c.scope] + c.cost];
      charges := charges + [c];
    }

    method Settle(r: Reservation, usage: Usage, owned: bool, clear: bool) returns (result: Result<real, BudgetError>)
      requires Valid() && r in issued
      modifies this
      ensures Valid() && (Now(), result) == Settled(limits, old(Now()), r, usage, owned, clear)
      ensures WithinCaps(limits, old(Now())) && result != Err(Overrun) ==> WithinCaps(limits, Now())
    {
      hide Balanced, WithinCaps, Cost, Charged;
      SettleKeeps(limits, Now(), r, usage, owned, clear);
      BalancedKeys(Now());
      if !IsPending(Now(), r) { return Err(NoPending); }
      if !owned { return Err(NotAllowed); }
      var actual := Cost(r.spec, usage);
      if actual.None? { return Err(BadUsage); }
      Book(Charge(r.call, r.scope, usage.input, usage.output, actual.value, false));
      if usage.input > r.input || usage.output > r.output || modelCost > limits.maxCost { return Err(Overrun); }
      if !clear { return Err(BreakerOpen); }
      return Ok(actual.value);
    }

    method ChargeForRetry(r: Reservation, owned: bool) returns (result: Result<nat, BudgetError>)
      requires Valid() && r in issued
      modifies this
      ensures Valid() && (Now(), result) == RetryCharged(old(Now()), r, owned)
      ensures WithinCaps(limits, old(Now())) ==> WithinCaps(limits, Now())
    {
      hide Balanced, WithinCaps, Charged;
      if !IsPending(Now(), r) { return Err(NoPending); }
      if !owned { return Err(NotAllowed); }
      PendingIsIssued(Now(), r);
      FullChargeKeeps(limits, Now());
      BalancedKeys(Now());
      Book(InFull(r));
      return Ok(r.call);
    }

    method ChargeFailedRequest(owned: bool) returns (result: Result<nat, BudgetError>)
      requires Valid()
      modifies this
      ensures Valid() && (Now(), result) == FailureCharged(old(Now()), owned)
      ensures WithinCaps(limits, old(Now())) ==> WithinCaps(limits, Now())
    {
      if modelReservation.None? { return Ok(0); }
      var pending := modelReservation.value;
      if !owned { return Err(NotAllowed); }
      hide Balanced, WithinCaps, Charged;
      FullChargeKeeps(limits, Now());
      BalancedKeys(Now());
      Book(InFull(pending));
      return Ok(pending.call);
    }
  }
}
