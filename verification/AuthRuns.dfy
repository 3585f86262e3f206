/** What the limiter of authentication attempts guarantees over whole runs. */
module AuthRuns {
  import opened AuthLimiter

  /** An attempt of a peer, or the end of one it was admitted for. */
  datatype Event = Attempt(host: string, now: int) | Done(host: string, success: bool)

  /** The limiter, what its clock showed last, and per peer the first recorded contact and the
      attempts that were admitted and did not succeed: failed or still in flight. */
  datatype Run = Run(table: Table, clock: int, first: map<string, int>, spent: map<string, int>)

  function Spent(r: Run, host: string): int {
    if host in r.spent then r.spent[host] else 0
  }

  /** The clock does not run backwards, and only attempts in flight end. */
  predicate Allowed(r: Run, e: Event) {
    match e
    case Attempt(_, now) => r.clock <= now
    case Done(host, _) => host in r.table.peers && r.table.peers[host].inflight > 0
  }

  function Advance(r: Run, e: Event): Run
    requires Allowed(r, e)
  {
    match e
    case Attempt(host, now) =>
      var (table, answer) := Begin(r.table, host, now);
      Run(table, now,
          if (answer.Admitted? || answer.Exhausted?) && host !in r.first then r.first[host := now] else r.first,
          if answer.Admitted? then r.spent[host := Spent(r, host) + 1] else r.spent)
    case Done(host, success) =>
      Run(Finish(r.table, host, success), r.clock, r.first,
          if success then r.spent[host := Spent(r, host) - 1] else r.spent)
  }

  function StartRun(clock: int): Run {
    Run(EMPTY, clock, map[], map[])
  }

  ghost predicate ValidRun(clock: int, events: seq<Event>)
    decreases |events|, 0
  {
    events == [] ||
    (ValidRun(clock, events[..|events| - 1]) && Allowed(After(clock, events[..|events| - 1]), events[|events| - 1]))
  }

  ghost function After(clock: int, events: seq<Event>): Run
    requires ValidRun(clock, events)
    decreases |events|, 1
  {
    if events == [] then StartRun(clock) else Advance(After(clock, events[..|events| - 1]), events[|events| - 1])
  }

  // ----- The amortised bound

  /** A mapped bucket never holds more than it may, given what its peer spent since first contact. */
  predicate Charged(b: Bucket, first: int, spent: int, clock: int) {
    && 0 <= b.tokens <= FULL && 0 <= b.inflight <= spent && first <= b.updated <= clock
    && b.tokens + spent * REFILL <= FULL + (b.updated - first)
  }

  /** A peer without a bucket: never met, or evicted after more idle time than a full bucket needs. */
  predicate Uncharged(r: Run, host: string) {
    if host in r.first then 0 <= Spent(r, host) && Spent(r, host) * REFILL <= r.clock - r.first[host]
        else Spent(r, host) == 0
  }

  ghost predicate Accounted(r: Run) {
    && (forall host <- r.table.peers ::
          host in r.first && Charged(r.table.peers[host], r.first[host], Spent(r, host), r.clock))
    && (forall host :: host !in r.table.peers ==> Uncharged(r, host))
  }

  lemma {:induction false} RefillKeepsCharge(b: Bucket, first: int, spent: int, clock: int, now: int)
    requires Charged(b, first, spent, clock) && clock <= now
    ensures Charged(Refilled(b, now), first, spent, now)
  {
  }

  /** Five idle minutes refill more than a full bucket: the evicted peer is owed nothing. */
  lemma {:induction false} IdleIsForgotten(b: Bucket, first: int, spent: int, clock: int, now: int)
    requires Charged(b, first, spent, clock) && Idle(b, now)
    ensures 0 <= spent && spent * REFILL <= now - first
  {
  }

  lemma {:induction false} EvictKeepsAccounts(r: Run, now: int)
    requires Accounted(r) && r.clock <= now
    ensures Accounted(r.(table := r.table.(peers := Evicted(r.table.peers, now)), clock := now))
  {
    var u := r.(table := r.table.(peers := Evicted(r.table.peers, now)), clock := now);
    forall host | host !in u.table.peers
      ensures Uncharged(u, host)
    {
      if host in r.table.peers {
        IdleIsForgotten(r.table.peers[host], r.first[host], Spent(r, host), r.clock, now);
      } else {
        assert Uncharged(r, host);
      }
    }
  }

  lemma {:induction false} TickKeepsAccounts(r: Run, now: int)
    requires Accounted(r) && r.clock <= now
    ensures Accounted(r.(clock := now))
  {
    forall host | host !in r.table.peers
      ensures Uncharged(r.(clock := now), host)
    {
      assert Uncharged(r, host);
    }
  }

  /** A bucket made for a peer without one is accounted for. */
  lemma {:induction false} NewBucketCharged(r: Run, host: string)
    requires Accounted(r) && host !in r.table.peers
    ensures var first := if host in r.first then r.first[host] else r.clock;
            Charged(Bucket(FULL, r.clock, 0), first, Spent(r, host), r.clock)
  {
    assert Uncharged(r, host);
  }

  /** Charging the bucket `b` that `host` has at this moment. */
  lemma {:induction false} ChargeKeepsAccounts(r: Run, host: string, b: Bucket)
    requires Accounted(r)
    requires Charged(b, if host in r.first then r.first[host] else r.clock, Spent(r, host), r.clock)
    ensures var (table, answer) := Charge(r.table, host, b, r.clock);
            Accounted(Run(table, r.clock, if host !in r.first then r.first[host := r.clock] else r.first,
                          if answer.Admitted? then r.spent[host := Spent(r, host) + 1] else r.spent))
  {
    var first := if host in r.first then r.first[host] else r.clock;
    RefillKeepsCharge(b, first, Spent(r, host), r.clock, r.clock);
    var (table, answer) := Charge(r.table, host, b, r.clock);
    var u := Run(table, r.clock, if host !in r.first then r.first[host := r.clock] else r.first,
                 if answer.Admitted? then r.spent[host := Spent(r, host) + 1] else r.spent);
    forall other | other !in u.table.peers
      ensures Uncharged(u, other)
    {
      assert Uncharged(r, other);
    }
  }

  lemma {:induction false} AttemptKeepsAccounts(r: Run, host: string, now: int)
    requires Accounted(r) && r.clock <= now
    ensures Accounted(Advance(r, Attempt(host, now)))
  {
    hide Accounted, Charge, Evicted, Begin, Charged;
    TickKeepsAccounts(r, now);
    EvictKeepsAccounts(r, now);
    AttemptCases(r, host, now);
  }

  lemma {:induction false} AttemptCases(r: Run, host: string, now: int)
    requires Accounted(r.(clock := now)) && r.clock <= now
    requires Accounted(r.(table := r.table.(peers := Evicted(r.table.peers, now)), clock := now))
    ensures Accounted(Advance(r, Attempt(host, now)))
  {
    hide Charge, Evicted, Charged, Accounted;
    var s := r.(clock := now);
    if r.table.inflight >= BURST {
    } else if host in r.table.peers {
      MappedCharged(s, host);
      ChargeKeepsAccounts(s, host, r.table.peers[host]);
      ChargeAnswers(r.table, host, r.table.peers[host], now);
    } else {
      var u := if |r.table.peers| >= MAX_PEERS then s.(table := r.table.(peers := Evicted(r.table.peers, now))) else s;
      if |u.table.peers| < MAX_PEERS {
        StillUnmapped(r, host, now);
        NewBucketCharged(u, host);
        ChargeKeepsAccounts(u, host, Bucket(FULL, now, 0));
        ChargeAnswers(u.table, host, Bucket(FULL, now, 0), now);
      }
    }
  }

  lemma {:induction false} ChargeAnswers(t: Table, host: string, b: Bucket, now: int)
    ensures var answer := Charge(t, host, b, now).1; answer.Admitted? || answer.Exhausted?
  {
  }

  lemma {:induction false} StillUnmapped(r: Run, host: string, now: int)
    requires host !in r.table.peers
    ensures host !in Evicted(r.table.peers, now)
  {
  }

  lemma {:induction false} MappedCharged(r: Run, host: string)
    requires Accounted(r) && host in r.table.peers
    ensures host in r.first && Charged(r.table.peers[host], r.first[host], Spent(r, host), r.clock)
  {
  }

  lemma {:induction false} DoneKeepsAccounts(r: Run, host: string, success: bool)
    requires Accounted(r) && Allowed(r, Done(host, success))
    ensures Accounted(Advance(r, Done(host, success)))
  {
    var u := Advance(r, Done(host, success));
    forall other | other !in u.table.peers
      ensures Uncharged(u, other)
    {
      assert Uncharged(r, other);
    }
  }

  lemma {:induction false} RunsAreAccounted(clock: int, events: seq<Event>)
    requires ValidRun(clock, events)
    ensures Accounted(After(clock, events))
  {
    hide Accounted, Advance;
    if events == [] {
      StartAccounted(clock);
    } else {
      var front, e := events[..|events| - 1], events[|events| - 1];
      RunsAreAccounted(clock, front);
      match e
      case Attempt(host, now) => AttemptKeepsAccounts(After(clock, front), host, now);
      case Done(host, success) => DoneKeepsAccounts(After(clock, front), host, success);
    }
  }

  lemma {:induction false} StartAccounted(clock: int)
    ensures Accounted(StartRun(clock))
  {
  }

  /** Failed and in-flight attempts of a peer never exceed 32 plus one per three seconds since first contact. */
  lemma {:induction false} SpendingIsBounded(clock: int, events: seq<Event>, host: string)
    requires ValidRun(clock, events)
    ensures var r := After(clock, events);
            if host in r.first then Spent(r, host) * 3_000_000_000 <= 32 * 3_000_000_000 + (r.clock - r.first[host])
                else Spent(r, host) == 0
  {
    hide After;
    RunsAreAccounted(clock, events);
    var r := After(clock, events);
    if host in r.table.peers {
      MappedCharged(r, host);
    } else {
      assert Uncharged(r, host);
    }
  }
}
