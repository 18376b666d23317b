/** A guard that renews its lease in time keeps it, whatever the other guards do. */
module LeaseRenewal {
  import opened Results
  import opened Leases
  import opened LeaseGuards

  /** The guard's entry acquired the newest generation; it is not closing and no step of it has failed. */
  predicate AtWork(g: Guard, generation: nat) {
    && !g.lost && !g.stop
    && if g.main.Publishing? then g.main.got.generation == generation && !g.thread && g.beat.Ended?
       else
         && g.lease.Some? && g.lease.value.generation == generation && g.thread
         && (match g.main
             case Idle => true
             case Checking(l) => l.generation == generation
             case Confirmed(l) => l.generation == generation
             case _ => false)
         && (match g.beat
             case Waiting => true
             case Beating(l) => l.generation == generation
             case Renewed(l) => l.generation == generation
             case _ => false)
  }

  predicate OnlyOneNamed(s: State, i: nat)
    requires i < |s.guards|
  {
    forall k | 0 <= k < |s.guards| && k != i :: s.guards[k].owner != s.guards[i].owner
  }

  /** The row is the guard's, was last renewed at `last`, and has not run out. */
  predicate Alive(s: State, i: nat, last: int) {
    && i < |s.guards| && OnlyOneNamed(s, i) && AtWork(s.guards[i], s.store.counter)
    && last <= s.time < last + s.guards[i].ttl
    && Consistent(s.store) && Holds(s.store, s.guards[i].owner, s.store.counter, s.time)
    && s.store.row.value.heartbeat == last && last + s.guards[i].ttl <= s.store.row.value.expires
  }

  /** The step calls `heartbeat_lease` for the guard. */
  predicate Renews(s: State, i: nat, a: Action)
    requires i < |s.guards|
  {
    a.BeatStep? && a.guard == i && s.guards[i].beat.Beating? && a.now <= s.time
  }

  /** A step that does not close the guard, fail its heartbeat, set its clock back, or let the time
      since its last renewal reach the time its lease lasts. */
  predicate Prompt(s: State, i: nat, last: int, a: Action)
    requires i < |s.guards|
  {
    && (a.MainStep? && a.guard == i ==> !a.call.Close?)
    && (Renews(s, i, a) ==> !a.fails && last <= a.now)
    && (a.Tick? ==> a.to < last + s.guards[i].ttl)
  }

  function LastRenewal(s: State, i: nat, last: int, a: Action): int
    requires i < |s.guards|
  {
    if Renews(s, i, a) then a.now else last
  }

  /** Every step of the run is prompt, counting from the last renewal before it. */
  ghost predicate Timely(s: State, i: nat, last: int, actions: seq<Action>)
    requires i < |s.guards|
    decreases |actions|
  {
    actions == [] ||
    (&& Prompt(s, i, last, actions[0])
     && i < |Step(s, actions[0]).guards|
     && Timely(Step(s, actions[0]), i, LastRenewal(s, i, last, actions[0]), actions[1..]))
  }

  // ---------------------------------------------------------------- one step

  lemma OwnMainStaysAlive(s: State, i: nat, last: int, call: Call, now: int)
    requires Alive(s, i, last) && !call.Close? && now <= s.time
    ensures Alive(StepMain(s, i, call, now), i, last)
  {
    hide Acquire, Release, Heartbeat;
    var g := s.guards[i];
    if g.main.Checking? { AssertedExactly(s.store, g.owner, g.main.read.generation, now); }
    var t := StepMain(s, i, call, now);
    assert forall k | 0 <= k < |s.guards| && k != i :: t.guards[k] == s.guards[k];
  }

  lemma OwnBeatStaysAlive(s: State, i: nat, last: int, now: int, fails: bool)
    requires Alive(s, i, last) && now <= s.time && Prompt(s, i, last, BeatStep(i, now, fails))
    ensures Alive(StepBeat(s, i, now, fails), i, LastRenewal(s, i, last, BeatStep(i, now, fails)))
  {
    hide Acquire, Release, Assert, Heartbeat;
    var g := s.guards[i];
    if g.beat.Beating? { RenewedExactly(s.store, g.owner, g.beat.held.generation, g.ttl, now); }
    var t := StepBeat(s, i, now, fails);
    assert forall k | 0 <= k < |s.guards| && k != i :: t.guards[k] == s.guards[k];
  }

  lemma OtherMainLeavesTheRow(s: State, i: nat, last: int, k: nat, call: Call, now: int)
    requires Alive(s, i, last) && k < |s.guards| && k != i && now <= s.time
    ensures var t := StepMain(s, k, call, now);
            t.store == s.store && |t.guards| == |s.guards| && t.guards[i] == s.guards[i] && t.time == s.time
  {
    hide Acquire, Release, Assert, AtWork;
    var g := s.guards[k];
    AcquiredExactly(s.store, g.owner, g.ttl, now);
    if g.main.Releasing? { ReleasedExactly(s.store, g.owner, g.main.mine.generation); }
  }

  lemma OtherBeatLeavesTheRow(s: State, i: nat, last: int, k: nat, now: int, fails: bool)
    requires Alive(s, i, last) && k < |s.guards| && k != i && now <= s.time
    ensures var t := StepBeat(s, k, now, fails);
            t.store == s.store && |t.guards| == |s.guards| && t.guards[i] == s.guards[i] && t.time == s.time
  {
    hide Heartbeat, AtWork;
    var g := s.guards[k];
    if g.beat.Beating? {
      var (store, renewed) := Heartbeat(s.store, g.owner, g.beat.held.generation, g.ttl, now);
      RenewedExactly(s.store, g.owner, g.beat.held.generation, g.ttl, now);
      assert renewed.None?;
      assert store == s.store;
    }
  }

  /** Nobody else's step touches the row. */
  lemma OthersLeaveTheRow(s: State, i: nat, last: int, a: Action)
    requires Alive(s, i, last) && !a.Tick? && a.guard != i
    ensures Alive(Step(s, a), i, last)
  {
    hide AtWork, StepMain, StepBeat, Consistent, Holds;
    OwnersStayOnce(s, a);
    match a
    case MainStep(k, call, now) => if k < |s.guards| && now <= s.time { OtherMainLeavesTheRow(s, i, last, k, call, now); }
    case BeatStep(k, now, fails) => if k < |s.guards| && now <= s.time { OtherBeatLeavesTheRow(s, i, last, k, now, fails); }
  }

  lemma StepStaysAlive(s: State, i: nat, last: int, a: Action)
    requires Alive(s, i, last) && Prompt(s, i, last, a)
    ensures Alive(Step(s, a), i, LastRenewal(s, i, last, a))
  {
    hide AtWork, StepMain, StepBeat;
    match a
    case MainStep(k, call, now) =>
      if k != i { OthersLeaveTheRow(s, i, last, a); } else if now <= s.time { OwnMainStaysAlive(s, i, last, call, now); }
    case BeatStep(k, now, fails) =>
      if k != i { OthersLeaveTheRow(s, i, last, a); } else if now <= s.time { OwnBeatStaysAlive(s, i, last, now, fails); }
    case Tick(to) =>
  }

  // ---------------------------------------------------------------- every run

  /** What a lease kept alive is worth: the guard has recorded no loss, `assert_owned` is accepted
      once the entry is over and is not being refused, and no other owner can acquire the lease. */
  ghost predicate KeepsItsLease(s: State, i: nat) {
    && i < |s.guards| && !s.guards[i].lost && !s.guards[i].main.Refuted?
    && (s.guards[i].main.Publishing? || AcceptedNow(s, i))
    && (forall owner: nat, ttl, now | owner != s.guards[i].owner && now <= s.time ::
          Acquire(s.store, owner, ttl, now) == (s.store, Contended))
  }

  lemma AliveKeepsItsLease(s: State, i: nat, last: int)
    requires Alive(s, i, last)
    ensures KeepsItsLease(s, i)
  {
    hide Acquire, Assert;
    if !s.guards[i].main.Publishing? { AssertedExactly(s.store, s.guards[i].owner, s.guards[i].lease.value.generation, s.time); }
    forall owner: nat, ttl, now | owner != s.guards[i].owner && now <= s.time
      ensures Acquire(s.store, owner, ttl, now) == (s.store, Contended)
    {
      AcquiredExactly(s.store, owner, ttl, now);
    }
  }

  lemma {:induction false} TimelyRunStaysAlive(s: State, i: nat, last: int, actions: seq<Action>)
    requires Alive(s, i, last) && Timely(s, i, last, actions)
    ensures KeepsItsLease(Run(s, actions), i)
    decreases |actions|
  {
    hide Step, KeepsItsLease, Prompt, OnlyOneNamed, AtWork, Holds, Consistent;
    if actions == [] {
      AliveKeepsItsLease(s, i, last);
    } else {
      StepStaysAlive(s, i, last, actions[0]);
      TimelyRunStaysAlive(Step(s, actions[0]), i, LastRenewal(s, i, last, actions[0]), actions[1..]);
    }
  }

  lemma EntryIsAlive(s: State, i: nat, call: Call, now: int)
    requires Inv(s) && i < |s.guards| && OnlyOneNamed(s, i) && s.guards[i].main.Acquiring?
    requires now <= s.time < now + s.guards[i].ttl && Acquire(s.store, s.guards[i].owner, s.guards[i].ttl, now).1.Held?
    ensures Alive(Step(s, MainStep(i, call, now)), i, now)
  {
    hide Acquire, LogOk;
    var g := s.guards[i];
    assert GuardOk(s.issued, g);
    AcquiredExactly(s.store, g.owner, g.ttl, now);
    var t := Step(s, MainStep(i, call, now));
    assert forall k | 0 <= k < |s.guards| && k != i :: t.guards[k] == s.guards[k];
  }

  /** A guard with a name of its own that has acquired the lease, in any run, keeps it in every
      state of every timely continuation. */
  lemma TimelyGuardKeepsItsLease(start: State, before: seq<Action>, i: nat, call: Call, now: int, after: seq<Action>)
    requires Initial(start) && i < |start.guards| && OnlyOneNamed(start, i)
    requires var s := Run(start, before);
             && i < |s.guards| && s.guards[i].main.Acquiring? && now <= s.time < now + s.guards[i].ttl
             && Acquire(s.store, s.guards[i].owner, s.guards[i].ttl, now).1.Held?
             && i < |Step(s, MainStep(i, call, now)).guards|
             && Timely(Step(s, MainStep(i, call, now)), i, now, after)
    ensures KeepsItsLease(Run(Step(Run(start, before), MainStep(i, call, now)), after), i)
  {
    hide Initial, Inv, Run, Step, Acquire, KeepsItsLease, Alive, Timely;
    InitialInv(start);
    RunKeeps(start, before);
    OwnersStay(start, before);
    EntryIsAlive(Run(start, before), i, call, now);
    TimelyRunStaysAlive(Step(Run(start, before), MainStep(i, call, now)), i, now, after);
  }
}
