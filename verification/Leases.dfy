/** Fenced leases: the store's transactions on one lease name. */
module Leases {
  import opened Results

  const MAX_GENERATION := 9223372036854775807

  /** The row of a held lease; times are readings of one clock. */
  datatype Row = Row(owner: nat, generation: nat, heartbeat: int, expires: int)

  /** The generation counter outlives the row. */
  datatype Store = Store(counter: nat, row: Option<Row>)

  datatype Lease = Lease(generation: nat, expires: int)

  datatype Acquired = Held(lease: Lease) | Contended | Broken

  predicate Consistent(s: Store) {
    s.row.Some? ==> s.row.value.generation == s.counter && s.counter > 0
  }

  function Later(a: int, b: int): int {
    if a < b then b else a
  }

  /** `acquire_lease`: take a free or expired lease under a new generation, or renew one's own. */
  function Acquire(s: Store, owner: nat, ttl: int, now: int): (Store, Acquired) {
    match s.row
    case None =>
      if s.counter >= MAX_GENERATION then (s, Broken)
      else
        var row := Row(owner, s.counter + 1, now, now + ttl);
        (Store(s.counter + 1, Some(row)), Held(Lease(row.generation, row.expires)))
    case Some(row) =>
      if row.generation != s.counter then (s, Broken)
      else if row.owner != owner && row.expires > now then (s, Contended)
      else if row.expires <= now then
        if row.generation >= MAX_GENERATION then (s, Broken)
        else
          var next := Row(owner, row.generation + 1, now, now + ttl);
          (Store(next.generation, Some(next)), Held(Lease(next.generation, next.expires)))
      else if now < row.heartbeat then (s, Contended)
      else
        var next := Row(owner, row.generation, now, Later(row.expires, now + ttl));
        (Store(s.counter, Some(next)), Held(Lease(next.generation, next.expires)))
  }

  /** `heartbeat_lease`; an error and a refusal both lose the lease. */
  function Heartbeat(s: Store, owner: nat, generation: nat, ttl: int, now: int): (Store, Option<Lease>) {
    match s.row
    case None => (s, None)
    case Some(row) =>
      if row.generation != s.counter || row.owner != owner || row.generation != generation
         || row.expires <= now || now < row.heartbeat
      then (s, None)
      else
        var next := row.(heartbeat := now, expires := Later(row.expires, now + ttl));
        (Store(s.counter, Some(next)), Some(Lease(generation, next.expires)))
  }

  /** `release_lease`: whether the row was deleted. */
  function Release(s: Store, owner: nat, generation: nat): (Store, bool) {
    match s.row
    case None => (s, false)
    case Some(row) =>
      if row.generation != s.counter || row.owner != owner || row.generation != generation then (s, false)
      else (Store(s.counter, None), true)
  }

  /** `assert_lease`. */
  function Assert(s: Store, owner: nat, generation: nat, now: int): Option<Lease> {
    match s.row
    case None => None
    case Some(row) =>
      if row.generation != s.counter || row.owner != owner || row.generation != generation || row.expires <= now then None
      else Some(Lease(row.generation, row.expires))
  }

  // ---------------------------------------------------------------- what the transactions grant

  /** The row has not run out. */
  predicate Standing(s: Store, now: int) {
    s.row.Some? && now < s.row.value.expires
  }

  /** The row is this owner's, under this generation, and has not run out. */
  predicate Holds(s: Store, owner: nat, generation: nat, now: int) {
    Standing(s, now) && s.row.value.owner == owner && s.row.value.generation == generation
  }

  /** The row lasts from `now` for the time asked, and no shorter than it did before. */
  predicate Extended(before: Row, after: Row, ttl: int, now: int) {
    && after.owner == before.owner && after.generation == before.generation && after.heartbeat == now
    && now + ttl <= after.expires && before.expires <= after.expires
    && (after.expires == now + ttl || after.expires == before.expires)
  }

  /** A renewal is granted exactly to the holder of a standing row whose last heartbeat is not in
      the future; it extends the row, and a refusal changes nothing. */
  lemma RenewedExactly(s: Store, owner: nat, generation: nat, ttl: int, now: int)
    requires Consistent(s)
    ensures var (t, renewed) := Heartbeat(s, owner, generation, ttl, now);
            && (renewed.Some? <==> Holds(s, owner, generation, now) && s.row.value.heartbeat <= now)
            && (renewed.None? ==> t == s)
            && (renewed.Some? ==>
                  && t.counter == s.counter && t.row.Some? && Extended(s.row.value, t.row.value, ttl, now)
                  && renewed.value == Lease(generation, t.row.value.expires))
  {}

  /** A lease is granted under the next generation when no row stands, and under the same one to
      the owner of the standing row, which it extends; everyone else is refused. */
  lemma AcquiredExactly(s: Store, owner: nat, ttl: int, now: int)
    requires Consistent(s)
    ensures var (t, got) := Acquire(s, owner, ttl, now);
            var own := Standing(s, now) && s.row.value.owner == owner && s.row.value.heartbeat <= now;
            && (got.Broken? <==> !Standing(s, now) && s.counter >= MAX_GENERATION)
            && (got.Contended? <==> Standing(s, now) && !own)
            && (!got.Held? ==> t == s)
            && (got.Held? ==>
                  && t.row.Some? && t.counter == t.row.value.generation && got.lease == Lease(t.counter, t.row.value.expires)
                  && if own then t.counter == s.counter && Extended(s.row.value, t.row.value, ttl, now)
                     else t == Store(s.counter + 1, Some(Row(owner, s.counter + 1, now, now + ttl))))
  {}

  /** The holder of the row, run out or not, deletes it; the generation counter stays. */
  lemma ReleasedExactly(s: Store, owner: nat, generation: nat)
    requires Consistent(s)
    ensures var (t, released) := Release(s, owner, generation);
            && (released <==> s.row.Some? && s.row.value.owner == owner && s.row.value.generation == generation)
            && t == if released then Store(s.counter, None) else s
  {}

  lemma AssertedExactly(s: Store, owner: nat, generation: nat, now: int)
    requires Consistent(s)
    ensures var found := Assert(s, owner, generation, now);
            && (found.Some? <==> Holds(s, owner, generation, now))
            && (found.Some? ==> found.value == Lease(generation, s.row.value.expires))
  {}
}
