/** Lease guards: every interleaving of their main threads, their heartbeat threads and the clock. */
module LeaseGuards {
  import opened Results
  import opened Leases

  // ---------------------------------------------------------------- the state

  /** Where a guard's main thread is: between two steps of `__enter__`, `assert_owned` or `close`. */
  datatype Main =
    | Idle
    | Acquiring                        // nothing is active; about to call acquire_lease
    | Publishing(got: Lease)           // acquired; about to store it and start the heartbeat
    | Checking(read: Lease)            // read the lease, no loss recorded; about to call assert_lease
    | Confirmed(current: Lease)        // the store confirmed it; about to store what it returned
    | Refuted                          // the store refused; about to record the loss
    | Joining                          // stop is set; waiting for the heartbeat thread to end
    | Releasing(mine: Lease)           // about to call release_lease

  /** Where a guard's heartbeat thread is. */
  datatype Beat =
    | Ended
    | Waiting                          // on the stop event
    | Beating(held: Lease)             // about to call heartbeat_lease
    | Renewed(renewed: Lease)          // about to store the renewed lease
    | Failing                          // about to record the loss

  /** The guard's fields, the places of its threads, and the generation its entry acquired. */
  datatype Guard = Guard(owner: nat, ttl: int, lease: Option<Lease>, thread: bool, lost: bool, stop: bool,
                         main: Main, beat: Beat, entry: nat)

  /** What is recorded of a run: a lease that `assert_owned` accepted, and a released one. */
  datatype Event = Accepted(guard: nat, owner: nat, lease: Lease) | Released(generation: nat)

  /** `issued[g - 1]` is the owner that got generation `g`. */
  datatype State = State(time: int, store: Store, guards: seq<Guard>, issued: seq<nat>, log: seq<Event>)

  // ---------------------------------------------------------------- the steps

  datatype Call = Enter | AssertOwned | Close

  /** One step: of a main thread, which starts `call` when it is idle; of a heartbeat thread, which
      may find its call failing; or of the clock. A store call uses a clock reading `now` that is
      not in the future. */
  datatype Action = MainStep(guard: nat, call: Call, now: int) | BeatStep(guard: nat, now: int, fails: bool) | Tick(to: int)

  function MarkLost(g: Guard): Guard {
    g.(lost := true, stop := true)
  }

  /** A main thread starts a call. */
  function Begin(g: Guard, call: Call): Guard {
    match call
    case Enter => if g.lease.Some? || g.thread then g else g.(lost := false, stop := false, main := Acquiring)
    case AssertOwned => if g.lease.None? || g.lost then g else g.(main := Checking(g.lease.value))
    case Close => g.(stop := true, main := Joining)
  }

  function StepMain(s: State, i: nat, call: Call, now: int): State
    requires i < |s.guards|
  {
    var g := s.guards[i];
    match g.main
    case Idle => s.(guards := s.guards[i := Begin(g, call)])
    case Acquiring =>
      var (store, got) := Acquire(s.store, g.owner, g.ttl, now);
      var issued := if store.counter > s.store.counter then s.issued + [g.owner] else s.issued;
      var h := match got
        case Held(lease) => g.(main := Publishing(lease), entry := lease.generation)
        case _ => g.(main := Idle);
      s.(store := store, issued := issued, guards := s.guards[i := h])
    case Publishing(lease) =>
      s.(guards := s.guards[i := g.(lease := Some(lease), thread := true, beat := Waiting, main := Idle)])
    case Checking(lease) =>
      (match Assert(s.store, g.owner, lease.generation, now)
       case None => s.(guards := s.guards[i := g.(main := Refuted)])
       case Some(current) =>
         s.(guards := s.guards[i := g.(main := Confirmed(current))], log := s.log + [Accepted(i, g.owner, current)]))
    case Confirmed(current) => s.(guards := s.guards[i := g.(lease := Some(current), main := Idle)])
    case Refuted => s.(guards := s.guards[i := MarkLost(g).(main := Idle)])
    case Joining =>
      if g.thread && !g.beat.Ended? then s
      else
        var next := match g.lease case None => Idle case Some(lease) => Releasing(lease);
        s.(guards := s.guards[i := g.(thread := false, lease := None, main := next)])
    case Releasing(lease) =>
      var (store, released) := Release(s.store, g.owner, lease.generation);
      s.(store := store, guards := s.guards[i := g.(main := Idle)],
         log := if released then s.log + [Released(lease.generation)] else s.log)
  }

  function StepBeat(s: State, i: nat, now: int, fails: bool): State
    requires i < |s.guards|
  {
    var g := s.guards[i];
    match g.beat
    case Ended => s
    case Waiting =>
      var next := if g.stop || g.lease.None? then Ended else Beating(g.lease.value);
      s.(guards := s.guards[i := g.(beat := next)])
    case Beating(lease) =>
      var (store, renewed) := if fails then (s.store, None) else Heartbeat(s.store, g.owner, lease.generation, g.ttl, now);
      var next := match renewed case None => Failing case Some(r) => Renewed(r);
      s.(store := store, guards := s.guards[i := g.(beat := next)])
    case Renewed(lease) => s.(guards := s.guards[i := g.(lease := Some(lease), beat := Waiting)])
    case Failing => s.(guards := s.guards[i := MarkLost(g).(beat := Ended)])
  }

  function Step(s: State, a: Action): State {
    match a
    case MainStep(i, call, now) => if i < |s.guards| && now <= s.time then StepMain(s, i, call, now) else s
    case BeatStep(i, now, fails) => if i < |s.guards| && now <= s.time then StepBeat(s, i, now, fails) else s
    case Tick(to) => if s.time <= to then s.(time := to) else s
  }

  function Run(s: State, actions: seq<Action>): State
    decreases |actions|
  {
    if actions == [] then s else Run(Step(s, actions[0]), actions[1..])
  }

  predicate Fresh(g: Guard) {
    g.lease.None? && !g.thread && g.main.Idle? && g.beat.Ended? && g.ttl > 0
  }

  /** Guards start unused, over a store that no lease was taken from. */
  predicate Initial(s: State) {
    s.store == Store(0, None) && s.issued == [] && s.log == [] && forall k | 0 <= k < |s.guards| :: Fresh(s.guards[k])
  }

  // ---------------------------------------------------------------- the invariant

  /** A lease in a guard's hands is one its owner was given, under the entry's generation. */
  predicate Owned(issued: seq<nat>, g: Guard, l: Lease) {
    1 <= l.generation <= |issued| && issued[l.generation - 1] == g.owner && l.generation == g.entry
  }

  predicate GuardOk(issued: seq<nat>, g: Guard) {
    && (g.lease.Some? ==> Owned(issued, g, g.lease.value))
    && (match g.main
        case Idle => true
        case Acquiring => g.lease.None? && !g.lost && !g.stop
        case Publishing(l) => g.lease.None? && !g.lost && !g.stop && Owned(issued, g, l)
        case Checking(l) => Owned(issued, g, l)
        case Confirmed(l) => Owned(issued, g, l)
        case Refuted => true
        case Joining => true
        case Releasing(l) => g.lease.None? && Owned(issued, g, l))
    && (match g.beat
        case Ended => true
        case Waiting => g.thread
        case Beating(l) => g.thread && Owned(issued, g, l)
        case Renewed(l) => g.thread && Owned(issued, g, l)
        case Failing => g.thread)
    && (g.main.Acquiring? || g.main.Publishing? || g.main.Releasing? ==> !g.thread)
  }

  /** The row carries the newest generation, and that generation's owner. */
  predicate StoreOk(s: State) {
    && Consistent(s.store) && |s.issued| == s.store.counter
    && (s.store.row.Some? ==> s.issued[s.store.counter - 1] == s.store.row.value.owner)
  }

  /** An accepted lease still stands, has run out, or was released. */
  ghost predicate Kept(s: State, l: Lease) {
    || (s.store.row.Some? && s.store.row.value.generation == l.generation && l.expires <= s.store.row.value.expires)
    || l.expires <= s.time
    || Released(l.generation) in s.log
  }

  ghost predicate EventOk(s: State, e: Event) {
    e.Accepted? ==>
      && 1 <= e.lease.generation <= |s.issued| && s.issued[e.lease.generation - 1] == e.owner
      && Kept(s, e.lease)
  }

  ghost predicate LogOk(s: State) {
    && (forall k | 0 <= k < |s.log| :: EventOk(s, s.log[k]))
    && (forall i, j | 0 <= i < j < |s.log| && s.log[i].Accepted? && s.log[j].Accepted? ::
          s.log[i].lease.generation <= s.log[j].lease.generation)
  }

  ghost predicate Inv(s: State) {
    StoreOk(s) && LogOk(s) && forall k | 0 <= k < |s.guards| :: GuardOk(s.issued, s.guards[k])
  }

  lemma InitialInv(s: State)
    requires Initial(s)
    ensures Inv(s)
  {}

  // ---------------------------------------------------------------- every step keeps it

  lemma MoreIssued(issued: seq<nat>, owner: nat, g: Guard)
    requires GuardOk(issued, g)
    ensures GuardOk(issued + [owner], g)
  {}

  lemma OneGuardChanges(s: State, i: nat, g: Guard)
    requires Inv(s) && i < |s.guards| && GuardOk(s.issued, g)
    ensures Inv(s.(guards := s.guards[i := g]))
  {
    var t := s.(guards := s.guards[i := g]);
    hide GuardOk;
    assert LogOk(t) by { SameLog(s, t); }
  }

  lemma SameLog(s: State, t: State)
    requires LogOk(s) && t.log == s.log && t.store == s.store && t.issued == s.issued && t.time == s.time
    ensures LogOk(t)
  {
    forall k | 0 <= k < |t.log|
      ensures EventOk(t, t.log[k])
    {
      assert EventOk(s, s.log[k]);
    }
  }

  /** Acquiring never breaks what an accepted lease promised: a new generation is given out only
      after the old row has expired or is gone. */
  lemma AcquireKeepsStore(s: State, owner: nat, ttl: int, now: int)
    requires StoreOk(s) && now <= s.time
    ensures var (store, got) := Acquire(s.store, owner, ttl, now);
            var issued := if store.counter > s.store.counter then s.issued + [owner] else s.issued;
            && StoreOk(s.(store := store, issued := issued))
            && (got.Held? ==> got.lease.generation == store.counter && issued[store.counter - 1] == owner && store.counter > 0)
            && (forall l: Lease | Kept(s, l) && l.generation <= s.store.counter :: Kept(s.(store := store, issued := issued), l))
            && (got.Broken? ==> s.store.counter >= MAX_GENERATION)
  {}

  lemma AcquireKeepsLog(s: State, owner: nat, ttl: int, now: int)
    requires StoreOk(s) && LogOk(s) && now <= s.time
    ensures var (store, got) := Acquire(s.store, owner, ttl, now);
            var issued := if store.counter > s.store.counter then s.issued + [owner] else s.issued;
            LogOk(s.(store := store, issued := issued))
  {
    AcquireKeepsStore(s, owner, ttl, now);
    var (store, got) := Acquire(s.store, owner, ttl, now);
    var issued := if store.counter > s.store.counter then s.issued + [owner] else s.issued;
    var t := s.(store := store, issued := issued);
    hide Acquire, Kept, StoreOk;
    forall k | 0 <= k < |t.log|
      ensures EventOk(t, t.log[k])
    {
      assert EventOk(s, s.log[k]);
    }
  }

  lemma HeartbeatKeepsLog(s: State, owner: nat, generation: nat, ttl: int, now: int)
    requires StoreOk(s) && LogOk(s) && now <= s.time
    ensures var (store, renewed) := Heartbeat(s.store, owner, generation, ttl, now);
            && StoreOk(s.(store := store)) && LogOk(s.(store := store))
            && store.counter == s.store.counter
            && (renewed.Some? ==> renewed.value.generation == generation)
  {
    var (store, renewed) := Heartbeat(s.store, owner, generation, ttl, now);
    var t := s.(store := store);
    forall k | 0 <= k < |t.log|
      ensures EventOk(t, t.log[k])
    {
      assert EventOk(s, s.log[k]);
    }
  }

  lemma LogGrows(s: State, e: Event)
    requires LogOk(s) && EventOk(s.(log := s.log + [e]), e)
    requires e.Accepted? ==> forall k | 0 <= k < |s.log| && s.log[k].Accepted? :: s.log[k].lease.generation <= e.lease.generation
    ensures LogOk(s.(log := s.log + [e]))
  {
    var t := s.(log := s.log + [e]);
    forall k | 0 <= k < |t.log|
      ensures EventOk(t, t.log[k])
    {
      if k < |s.log| {
        assert EventOk(s, s.log[k]);
        assert forall x :: x in s.log ==> x in t.log;
      }
    }
  }

  /** The store confirms a lease only under the newest generation. */
  lemma AcceptKeepsLog(s: State, i: nat, owner: nat, generation: nat, now: int)
    requires StoreOk(s) && LogOk(s) && Assert(s.store, owner, generation, now).Some?
    ensures var l := Assert(s.store, owner, generation, now).value;
            && LogOk(s.(log := s.log + [Accepted(i, owner, l)]))
            && l.generation == generation
  {
    var l := Assert(s.store, owner, generation, now).value;
    forall k | 0 <= k < |s.log| && s.log[k].Accepted?
      ensures s.log[k].lease.generation <= l.generation
    {
      assert EventOk(s, s.log[k]);
    }
    LogGrows(s, Accepted(i, owner, l));
  }

  lemma ReleaseKeepsLog(s: State, owner: nat, generation: nat)
    requires StoreOk(s) && LogOk(s)
    ensures var (store, released) := Release(s.store, owner, generation);
            var t := s.(store := store, log := if released then s.log + [Released(generation)] else s.log);
            StoreOk(t) && LogOk(t) && store.counter == s.store.counter
  {
    var (store, released) := Release(s.store, owner, generation);
    var t := s.(store := store, log := if released then s.log + [Released(generation)] else s.log);
    forall k | 0 <= k < |t.log|
      ensures EventOk(t, t.log[k])
    {
      if k < |s.log| {
        assert EventOk(s, s.log[k]);
        assert forall x :: x in s.log ==> x in t.log;
        if released { assert t.log[|s.log|] == Released(generation); }
      }
    }
  }

  lemma AllGuardsOk(s: State, t: State, i: nat)
    requires i < |s.guards| && |t.guards| == |s.guards| && GuardOk(t.issued, t.guards[i])
    requires forall k | 0 <= k < |s.guards| :: GuardOk(s.issued, s.guards[k])
    requires forall k | 0 <= k < |s.guards| && k != i :: t.guards[k] == s.guards[k]
    requires t.issued == s.issued || (|t.issued| == |s.issued| + 1 && t.issued[..|s.issued|] == s.issued)
    ensures forall k | 0 <= k < |t.guards| :: GuardOk(t.issued, t.guards[k])
  {
    forall k | 0 <= k < |t.guards|
      ensures GuardOk(t.issued, t.guards[k])
    {
      if k != i && t.issued != s.issued {
        MoreIssued(s.issued, t.issued[|s.issued|], s.guards[k]);
        assert s.issued + [t.issued[|s.issued|]] == t.issued;
      }
    }
  }

  lemma AcquiringKeeps(s: State, i: nat, call: Call, now: int)
    requires Inv(s) && i < |s.guards| && now <= s.time && s.guards[i].main.Acquiring?
    ensures Inv(StepMain(s, i, call, now))
  {
    hide LogOk, Acquire, StoreOk, GuardOk;
    var g := s.guards[i];
    AcquireKeepsStore(s, g.owner, g.ttl, now);
    AcquireKeepsLog(s, g.owner, g.ttl, now);
    var t := StepMain(s, i, call, now);
    AcquiredIsOk(s, i, call, now);
    GuardsDoNotMatter(t.(guards := s.guards), t);
    AllGuardsOk(s, t, i);
  }

  lemma AcquiredIsOk(s: State, i: nat, call: Call, now: int)
    requires StoreOk(s) && i < |s.guards| && now <= s.time && s.guards[i].main.Acquiring? && GuardOk(s.issued, s.guards[i])
    ensures var t := StepMain(s, i, call, now);
            && GuardOk(t.issued, t.guards[i]) && StoreOk(t)
            && (t.issued == s.issued || (|t.issued| == |s.issued| + 1 && t.issued[..|s.issued|] == s.issued))
  {
    hide LogOk, Acquire;
    var g := s.guards[i];
    AcquireKeepsStore(s, g.owner, g.ttl, now);
    CounterGrowsByOne(s.store, g.owner, g.ttl, now);
  }

  lemma CounterGrowsByOne(s: Store, owner: nat, ttl: int, now: int)
    requires Consistent(s)
    ensures var (store, got) := Acquire(s, owner, ttl, now); s.counter <= store.counter <= s.counter + 1
  {}

  lemma GuardsDoNotMatter(s: State, t: State)
    requires LogOk(s) && t == s.(guards := t.guards)
    ensures LogOk(t)
  {
    SameLog(s, t);
  }

  lemma MainKeeps(s: State, i: nat, call: Call, now: int)
    requires Inv(s) && i < |s.guards| && now <= s.time
    ensures Inv(StepMain(s, i, call, now))
  {
    hide Inv, StepMain;
    match s.guards[i].main
    case Acquiring => AcquiringKeeps(s, i, call, now);
    case Checking(_) => CheckingKeeps(s, i, call, now);
    case Releasing(_) => ReleasingKeeps(s, i, call, now);
    case _ => FieldsKeep(s, i, call, now);
  }

  lemma CheckingKeeps(s: State, i: nat, call: Call, now: int)
    requires Inv(s) && i < |s.guards| && s.guards[i].main.Checking?
    ensures Inv(StepMain(s, i, call, now))
  {
    hide LogOk, Assert;
    var g := s.guards[i];
    var lease := g.main.read;
    var current := Assert(s.store, g.owner, lease.generation, now);
    if current.Some? {
      AcceptKeepsLog(s, i, g.owner, lease.generation, now);
      var t := s.(log := s.log + [Accepted(i, g.owner, current.value)]);
      OneGuardChanges(t, i, g.(main := Confirmed(current.value)));
    } else {
      OneGuardChanges(s, i, g.(main := Refuted));
    }
  }

  lemma ReleasingKeeps(s: State, i: nat, call: Call, now: int)
    requires Inv(s) && i < |s.guards| && s.guards[i].main.Releasing?
    ensures Inv(StepMain(s, i, call, now))
  {
    hide LogOk, Release;
    var g := s.guards[i];
    var lease := g.main.mine;
    ReleaseKeepsLog(s, g.owner, lease.generation);
    var (store, released) := Release(s.store, g.owner, lease.generation);
    var t := s.(store := store, log := if released then s.log + [Released(lease.generation)] else s.log);
    OneGuardChanges(t, i, g.(main := Idle));
  }

  /** The steps that only change the guard's own fields. */
  lemma FieldsKeep(s: State, i: nat, call: Call, now: int)
    requires Inv(s) && i < |s.guards|
    requires var m := s.guards[i].main; m.Idle? || m.Publishing? || m.Confirmed? || m.Refuted? || m.Joining?
    ensures Inv(StepMain(s, i, call, now))
  {
    hide LogOk, StoreOk;
    var t := StepMain(s, i, call, now);
    assert GuardOk(s.issued, s.guards[i]);
    assert GuardOk(s.issued, t.guards[i]);
    OneGuardChanges(s, i, t.guards[i]);
    assert s.guards[i := t.guards[i]] == t.guards;
  }

  lemma BeatKeeps(s: State, i: nat, now: int, fails: bool)
    requires Inv(s) && i < |s.guards| && now <= s.time
    ensures Inv(StepBeat(s, i, now, fails))
  {
    hide LogOk, Heartbeat;
    var g := s.guards[i];
    match g.beat
    case Ended =>
    case Waiting =>
      var next := if g.stop || g.lease.None? then Ended else Beating(g.lease.value);
      OneGuardChanges(s, i, g.(beat := next));
    case Beating(lease) =>
      HeartbeatKeepsLog(s, g.owner, lease.generation, g.ttl, now);
      var (store, renewed) := if fails then (s.store, None) else Heartbeat(s.store, g.owner, lease.generation, g.ttl, now);
      var next := match renewed case None => Failing case Some(r) => Renewed(r);
      OneGuardChanges(s.(store := store), i, g.(beat := next));
    case Renewed(lease) => OneGuardChanges(s, i, g.(lease := Some(lease), beat := Waiting));
    case Failing => OneGuardChanges(s, i, MarkLost(g).(beat := Ended));
  }

  lemma TickKeeps(s: State, to: int)
    requires Inv(s) && s.time <= to
    ensures Inv(s.(time := to))
  {
    var t := s.(time := to);
    hide GuardOk;
    forall k | 0 <= k < |t.log|
      ensures EventOk(t, t.log[k])
    {
      assert EventOk(s, s.log[k]);
    }
  }

  lemma StepKeeps(s: State, a: Action)
    requires Inv(s)
    ensures Inv(Step(s, a))
  {
    match a
    case MainStep(i, call, now) => if i < |s.guards| && now <= s.time { MainKeeps(s, i, call, now); }
    case BeatStep(i, now, fails) => if i < |s.guards| && now <= s.time { BeatKeeps(s, i, now, fails); }
    case Tick(to) => if s.time <= to { TickKeeps(s, to); }
  }

  lemma {:induction false} RunKeeps(s: State, actions: seq<Action>)
    requires Inv(s)
    ensures Inv(Run(s, actions))
    decreases |actions|
  {
    hide Inv, Step;
    if actions != [] {
      StepKeeps(s, actions[0]);
      RunKeeps(Step(s, actions[0]), actions[1..]);
    }
  }

  // ---------------------------------------------------------------- what every interleaving keeps

  /** A call of `assert_owned` that ran now, without interruption, would be accepted. */
  predicate AcceptedNow(s: State, i: nat)
    requires i < |s.guards|
  {
    var g := s.guards[i];
    g.lease.Some? && !g.lost && Assert(s.store, g.owner, g.lease.value.generation, s.time).Some?
  }

  /** Two guards are both accepted only when they go by the same owner name and hold the same
      generation; guards with names of their own never are. */
  lemma OneOwnerAtATime(s: State, i: nat, j: nat)
    requires i < |s.guards| && j < |s.guards| && AcceptedNow(s, i) && AcceptedNow(s, j)
    ensures s.guards[i].owner == s.guards[j].owner
    ensures s.guards[i].lease.value.generation == s.guards[j].lease.value.generation == s.store.counter
  {}

  /** Over any run: when a lease is accepted, every lease accepted before it has a generation that
      is no newer; the same generation means the same owner, and a lease of another owner has
      expired by now or was released. */
  lemma AcceptedInTurn(start: State, actions: seq<Action>, a: Action, i: nat)
    requires Initial(start)
    requires var s := Run(start, actions); var t := Step(s, a);
             |t.log| == |s.log| + 1 && t.log[|s.log|].Accepted? && i < |s.log| && s.log[i].Accepted?
    ensures var s := Run(start, actions); var t := Step(s, a);
            var (e, f) := (s.log[i], t.log[|s.log|]);
            && e.lease.generation <= f.lease.generation
            && (e.lease.generation == f.lease.generation ==> e.owner == f.owner)
            && (e.owner != f.owner ==> e.lease.expires <= t.time || Released(e.lease.generation) in t.log)
  {
    InitialInv(start);
    RunKeeps(start, actions);
    var s := Run(start, actions);
    hide Run;
    AcceptanceIsTheRow(s, a);
    StepKeeps(s, a);
    StepAppends(s, a);
    var t := Step(s, a);
    hide Step, Kept;
    assert t.log[i] == s.log[i];
    assert EventOk(t, t.log[i]) && EventOk(t, t.log[|s.log|]);
  }

  /** What is accepted is the row as it is then. */
  lemma AcceptanceIsTheRow(s: State, a: Action)
    requires Inv(s) && |Step(s, a).log| == |s.log| + 1 && Step(s, a).log[|s.log|].Accepted?
    ensures var t := Step(s, a);
            t.store.row.Some? && t.store.row.value.generation == t.log[|s.log|].lease.generation == t.store.counter
  {
    hide LogOk, GuardOk;
  }

  /** New acceptances are of the newest generation only: a lease that was superseded stays fenced
      out, in every later state. */
  lemma {:induction false} SupersededStaysOut(s: State, actions: seq<Action>)
    requires Inv(s)
    ensures var t := Run(s, actions);
            && s.log <= t.log && s.store.counter <= t.store.counter
            && forall k | |s.log| <= k < |t.log| && t.log[k].Accepted? :: s.store.counter <= t.log[k].lease.generation
    decreases |actions|
  {
    hide Inv, Step;
    if actions != [] {
      var next := Step(s, actions[0]);
      StepKeeps(s, actions[0]);
      StepAppends(s, actions[0]);
      SupersededStaysOut(next, actions[1..]);
    }
  }

  lemma StepAppends(s: State, a: Action)
    requires Inv(s)
    ensures var t := Step(s, a);
            && s.log <= t.log && |t.log| <= |s.log| + 1 && s.store.counter <= t.store.counter
            && (|t.log| > |s.log| && t.log[|s.log|].Accepted? ==> s.store.counter <= t.log[|s.log|].lease.generation)
  {
    hide LogOk, GuardOk;
    if a.MainStep? && a.guard < |s.guards| {
      CounterGrowsByOne(s.store, s.guards[a.guard].owner, s.guards[a.guard].ttl, a.now);
    }
  }

  predicate NoEnter(actions: seq<Action>, i: nat) {
    forall k | 0 <= k < |actions| && actions[k].MainStep? && actions[k].guard == i :: !actions[k].call.Enter?
  }

  /** Once a loss is recorded and no check is under way, nothing is accepted from that guard until
      it enters again. */
  lemma {:induction false} LossSticks(s: State, actions: seq<Action>, i: nat)
    requires i < |s.guards| && s.guards[i].lost && !s.guards[i].main.Checking? && NoEnter(actions, i)
    ensures var t := Run(s, actions);
            && i < |t.guards| && t.guards[i].lost && s.log <= t.log
            && forall k | |s.log| <= k < |t.log| && t.log[k].Accepted? :: t.log[k].guard != i
    decreases |actions|
  {
    if actions != [] {
      LossSticksOnce(s, actions[0], i);
      hide Step;
      LossSticks(Step(s, actions[0]), actions[1..], i);
    }
  }

  lemma LossSticksOnce(s: State, a: Action, i: nat)
    requires i < |s.guards| && s.guards[i].lost && !s.guards[i].main.Checking?
    requires a.MainStep? && a.guard == i ==> !a.call.Enter?
    ensures var t := Step(s, a);
            && i < |t.guards| && t.guards[i].lost && !t.guards[i].main.Checking?
            && s.log <= t.log
            && forall k | |s.log| <= k < |t.log| && t.log[k].Accepted? :: t.log[k].guard != i
  {
    hide Acquire, Heartbeat, Assert, Release;
  }

  /** Only `close` deletes a row, and only the row of the generation that its own entry acquired,
      which no guard of another owner ever holds: a successor's lease is never released. */
  lemma CloseReleasesOwn(s: State, a: Action)
    requires Inv(s) && s.store.row.Some? && Step(s, a).store.row.None?
    ensures a.MainStep? && a.guard < |s.guards| && s.guards[a.guard].main.Releasing?
    ensures var (g, row) := (s.guards[a.guard], s.store.row.value);
            && row.owner == g.owner && row.generation == g.main.mine.generation == g.entry
            && forall h: Guard, l: Lease | Owned(s.issued, h, l) && h.owner != g.owner :: l.generation != row.generation
  {
    hide LogOk;
    if a.MainStep? && a.guard < |s.guards| { assert GuardOk(s.issued, s.guards[a.guard]); }
  }

  // ---------------------------------------------------------------- guards that share an owner name

  lemma {:induction false} RunOn(s: State, a: Action, rest: seq<Action>)
    ensures Run(s, [a] + rest) == Run(Step(s, a), rest)
  {
    assert ([a] + rest)[1..] == rest;
  }

  lemma ThreeSteps(s: State, a: Action, b: Action, c: Action)
    ensures Run(s, [a, b, c]) == Step(Step(Step(s, a), b), c)
  {
    hide Step;
    var s1, s2 := Step(s, a), Step(Step(s, a), b);
    RunOn(s, a, [b, c]);
    RunOn(s1, b, [c]);
    RunOn(s2, c, []);
    assert [a] + [b, c] == [a, b, c] && [b] + [c] == [b, c] && [c] + [] == [c];
  }

  /** `assert_owned`, run without interruption: it returns the row's lease, and accepts it, exactly
      when the lease is accepted now; else it records the loss, unless nothing is active. */
  lemma AssertOwnedRuns(s: State, i: nat)
    requires i < |s.guards| && s.guards[i].main.Idle?
    ensures var a := MainStep(i, AssertOwned, s.time);
            var (g, t) := (s.guards[i], Run(s, [a, a, a]));
            if AcceptedNow(s, i) then
              var current := Assert(s.store, g.owner, g.lease.value.generation, s.time).value;
              t == s.(guards := s.guards[i := g.(lease := Some(current))], log := s.log + [Accepted(i, g.owner, current)])
            else if g.lease.None? || g.lost then t == s
            else t == s.(guards := s.guards[i := g.(lost := true, stop := true)])
  {
    var a := MainStep(i, AssertOwned, s.time);
    hide Run, Assert;
    ThreeSteps(s, a, a, a);
    var g := s.guards[i];
    if g.lease.None? || g.lost {
      assert s.guards[i := g] == s.guards;
      assert Step(s, a) == s;
    } else {
      var s1 := Step(s, a);
      assert s1.guards[i].main == Checking(g.lease.value);
      var s2 := Step(s1, a);
      assert s2.guards[i].main.Confirmed? || s2.guards[i].main.Refuted?;
      var t := Step(s2, a);
      if AcceptedNow(s, i) {
        var current := Assert(s.store, g.owner, g.lease.value.generation, s.time).value;
        assert t.guards == s.guards[i := g.(lease := Some(current))];
      } else {
        assert t.guards == s.guards[i := g.(lost := true, stop := true)];
      }
    }
  }

  lemma {:induction false} RunConcat(s: State, a: seq<Action>, b: seq<Action>)
    ensures Run(s, a + b) == Run(Run(s, a), b)
    decreases |a|
  {
    hide Step;
    if a == [] {
      assert a + b == b;
    } else {
      assert (a + b)[1..] == a[1..] + b;
      RunConcat(Step(s, a[0]), a[1..], b);
    }
  }

  /** The first lease is out, taken or renewed just now, and stands. */
  predicate FirstLease(s: State, owner: nat) {
    && s.store.counter == 1 && s.store.row.Some?
    && var row := s.store.row.value; row.owner == owner && row.generation == 1 && row.heartbeat == s.time < row.expires
  }

  /** The guard holds the first lease, at rest. */
  predicate HoldsFirst(g: Guard) {
    g.lease.Some? && g.lease.value.generation == 1 && !g.lost && !g.stop && g.thread && g.main.Idle? && g.beat.Waiting?
  }

  /** The three steps of `__enter__`, at once. */
  function EnterRun(s: State, i: nat): seq<Action> {
    var a := MainStep(i, Enter, s.time);
    [a, a, a]
  }

  /** A fresh guard that enters gets the first lease, when it is free or its owner name has it. */
  lemma EnterShares(s: State, i: nat)
    requires i < |s.guards| && Fresh(s.guards[i])
    requires s.store == Store(0, None) || FirstLease(s, s.guards[i].owner)
    ensures var t := Run(s, EnterRun(s, i));
            && FirstLease(t, s.guards[i].owner) && t.time == s.time && |t.guards| == |s.guards|
            && HoldsFirst(t.guards[i]) && t.guards[i].owner == s.guards[i].owner
            && forall k | 0 <= k < |s.guards| && k != i :: t.guards[k] == s.guards[k]
  {
    var a := MainStep(i, Enter, s.time);
    hide Run;
    ThreeSteps(s, a, a, a);
    var s1 := Step(s, a);
    assert s1.guards[i].main.Acquiring? && s1.store == s.store;
    var s2 := Step(s1, a);
    assert s2.guards[i].main.Publishing? && FirstLease(s2, s.guards[i].owner);
  }

  /** `close` of a guard that holds the lease: stop, let the heartbeat end, join, release. */
  function CloseRun(s: State, i: nat): seq<Action> {
    var c := MainStep(i, Close, s.time);
    [c, BeatStep(i, s.time, false), c] + [c]
  }

  lemma CloseTakesTheRow(s: State, i: nat)
    requires i < |s.guards| && HoldsFirst(s.guards[i]) && FirstLease(s, s.guards[i].owner)
    ensures Run(s, CloseRun(s, i)).store.row == None && |Run(s, CloseRun(s, i)).guards| == |s.guards|
  {
    var c, d := MainStep(i, Close, s.time), BeatStep(i, s.time, false);
    hide Run;
    RunConcat(s, [c, d, c], [c]);
    ThreeSteps(s, c, d, c);
    var s1 := Step(s, c);
    assert s1.guards[i].main.Joining? && s1.guards[i].stop;
    var s2 := Step(s1, d);
    assert s2.guards[i].beat.Ended? && s2.guards[i].main.Joining?;
    var s3 := Step(s2, c);
    assert s3.guards[i].main == Releasing(s.guards[i].lease.value) && s3.store == s.store;
    RunOn(s3, c, []);
    assert [c] + [] == [c];
    RunNone(Step(s3, c));
  }

  lemma RunNone(s: State)
    ensures Run(s, []) == s
  {}

  /** Wherever two guards go by one owner name, they can both be accepted at once under one
      generation, and closing the first then takes the lease from the second. */
  lemma SharedOwnerSharesTheLease(start: State, i: nat, j: nat) returns (enter: seq<Action>, close: seq<Action>)
    requires Initial(start) && i < |start.guards| && j < |start.guards| && i != j
    requires start.guards[i].owner == start.guards[j].owner
    ensures var both := Run(start, enter);
            |both.guards| == |start.guards| && AcceptedNow(both, i) && AcceptedNow(both, j)
    ensures var after := Run(start, enter + close); |after.guards| == |start.guards| && !AcceptedNow(after, j)
  {
    hide Run;
    EnterShares(start, i);
    var one := Run(start, EnterRun(start, i));
    EnterShares(one, j);
    enter := EnterRun(start, i) + EnterRun(one, j);
    RunConcat(start, EnterRun(start, i), EnterRun(one, j));
    var both := Run(start, enter);
    assert both.guards[i] == one.guards[i];
    close := CloseRun(both, i);
    CloseTakesTheRow(both, i);
    RunConcat(start, enter, close);
  }

  lemma {:induction false} OwnersStay(s: State, actions: seq<Action>)
    ensures var t := Run(s, actions); |t.guards| == |s.guards| && forall k | 0 <= k < |s.guards| :: t.guards[k].owner == s.guards[k].owner
    decreases |actions|
  {
    if actions != [] {
      OwnersStayOnce(s, actions[0]);
      hide Step;
      OwnersStay(Step(s, actions[0]), actions[1..]);
    }
  }

  lemma OwnersStayOnce(s: State, a: Action)
    ensures var t := Step(s, a); |t.guards| == |s.guards| && forall k | 0 <= k < |s.guards| :: t.guards[k].owner == s.guards[k].owner
  {
    hide Acquire, Heartbeat, Assert, Release;
  }

  ghost predicate BothAccepted(start: State, actions: seq<Action>, i: nat, j: nat) {
    var s := Run(start, actions);
    i < j < |s.guards| && AcceptedNow(s, i) && AcceptedNow(s, j)
  }

  /** Distinct owner names are exactly what exclusion needs: some interleaving has two guards
      accepted at once exactly when two guards share a name. */
  lemma ExclusiveExactly(start: State)
    requires Initial(start)
    ensures (exists actions, i: nat, j: nat :: BothAccepted(start, actions, i, j)) <==>
            exists i, j :: 0 <= i < j < |start.guards| && start.guards[i].owner == start.guards[j].owner
  {
    hide Run, AcceptedNow;
    forall actions, i: nat, j: nat | BothAccepted(start, actions, i, j)
      ensures i < j < |start.guards| && start.guards[i].owner == start.guards[j].owner
    {
      OwnersStay(start, actions);
      OneOwnerAtATime(Run(start, actions), i, j);
    }
    if i, j :| 0 <= i < j < |start.guards| && start.guards[i].owner == start.guards[j].owner {
      var enter, close := SharedOwnerSharesTheLease(start, i, j);
      assert BothAccepted(start, enter, i, j);
    }
  }
}
