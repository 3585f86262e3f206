/** The bounded table behaves like one that never forgets a peer, and its in-flight count is exact. */
module AuthCache {
  import opened AuthLimiter
  import opened AuthRuns

  // ----- A limiter that never forgets

  /** The same limiter without a table size and without eviction. */
  function IdealBegin(t: Table, host: string, now: int): (Table, Answer) {
    if t.inflight >= BURST then (t, Busy)
    else Charge(t, host, if host in t.peers then t.peers[host] else Bucket(FULL, now, 0), now)
  }

  /** Both limiters over the same events; attempts refused for a full table are not shown to the ideal one. */
  ghost function IdealAfter(clock: int, events: seq<Event>): Table
    requires ValidRun(clock, events)
  {
    if events == [] then EMPTY
    else
      var front, e := events[..|events| - 1], events[|events| - 1];
      var t := IdealAfter(clock, front);
      match e
      case Attempt(host, now) =>
        if Begin(After(clock, front).table, host, now).1.TableFull? then t else IdealBegin(t, host, now).0
      case Done(host, success) => if host in t.peers then Finish(t, host, success) else t
  }

  /** A bucket only the ideal limiter still has would be full again by now. */
  predicate Forgettable(b: Bucket, clock: int) {
    b.inflight == 0 && b.tokens + (clock - b.updated) >= FULL && b.updated < clock
  }

  ghost predicate Similar(t: Table, ideal: Table, clock: int) {
    && t.inflight == ideal.inflight
    && (forall host <- ideal.peers :: 0 <= ideal.peers[host].tokens <= FULL)
    && (forall host <- t.peers :: host in ideal.peers && ideal.peers[host] == t.peers[host])
    && (forall host <- ideal.peers :: host in t.peers || Forgettable(ideal.peers[host], clock))
  }

  lemma {:induction false} EvictKeepsSimilar(t: Table, ideal: Table, clock: int, now: int)
    requires Similar(t, ideal, clock) && clock <= now
    ensures Similar(t.(peers := Evicted(t.peers, now)), ideal, now)
  {
  }

  lemma {:induction false} TickKeepsSimilar(t: Table, ideal: Table, clock: int, now: int)
    requires Similar(t, ideal, clock) && clock <= now
    ensures Similar(t, ideal, now)
  {
  }

  /** Charging a mapped bucket, or a new one for a peer the ideal limiter would have refilled. */
  lemma {:induction false} ChargeKeepsSimilar(t: Table, ideal: Table, host: string, now: int)
    requires Similar(t, ideal, now)
    ensures var b := if host in t.peers then t.peers[host] else Bucket(FULL, now, 0);
            var b' := if host in ideal.peers then ideal.peers[host] else Bucket(FULL, now, 0);
            && Charge(t, host, b, now).1 == Charge(ideal, host, b', now).1
            && Similar(Charge(t, host, b, now).0, Charge(ideal, host, b', now).0, now)
  {
    var b := if host in t.peers then t.peers[host] else Bucket(FULL, now, 0);
    var b' := if host in ideal.peers then ideal.peers[host] else Bucket(FULL, now, 0);
    assert Refilled(b, now) == Refilled(b', now);
  }

  lemma {:induction false} BeginKeepsSimilar(t: Table, ideal: Table, host: string, clock: int, now: int)
    requires Similar(t, ideal, clock) && clock <= now
    ensures Begin(t, host, now).1.TableFull? ==> Similar(Begin(t, host, now).0, ideal, now)
    ensures !Begin(t, host, now).1.TableFull? ==>
              && Begin(t, host, now).1 == IdealBegin(ideal, host, now).1
              && Similar(Begin(t, host, now).0, IdealBegin(ideal, host, now).0, now)
  {
    hide Similar, Charge, Evicted;
    TickKeepsSimilar(t, ideal, clock, now);
    EvictKeepsSimilar(t, ideal, clock, now);
    var u := t.(peers := Evicted(t.peers, now));
    SimilarInflight(t, ideal, now);
    ChargeKeepsSimilar(t, ideal, host, now);
    ChargeKeepsSimilar(u, ideal, host, now);
    ChargeAnswers(t, host, if host in t.peers then t.peers[host] else Bucket(FULL, now, 0), now);
    ChargeAnswers(u, host, Bucket(FULL, now, 0), now);
    if host !in t.peers {
      StillUnmapped(StartRun(now).(table := t), host, now);
    }
  }

  lemma {:induction false} SimilarInflight(t: Table, ideal: Table, clock: int)
    requires Similar(t, ideal, clock)
    ensures t.inflight == ideal.inflight
  {
  }

  lemma {:induction false} FinishKeepsSimilar(t: Table, ideal: Table, host: string, success: bool, clock: int)
    requires Similar(t, ideal, clock) && host in t.peers
    ensures host in ideal.peers && Similar(Finish(t, host, success), Finish(ideal, host, success), clock)
  {
  }

  lemma {:induction false} RunsStaySimilar(clock: int, events: seq<Event>)
    requires ValidRun(clock, events)
    ensures Similar(After(clock, events).table, IdealAfter(clock, events), After(clock, events).clock)
  {
    hide Similar, Begin, IdealBegin, Finish;
    if events == [] {
      EmptySimilar(clock);
    } else {
      var front, e := events[..|events| - 1], events[|events| - 1];
      RunsStaySimilar(clock, front);
      var r := After(clock, front);
      match e
      case Attempt(host, now) => BeginKeepsSimilar(r.table, IdealAfter(clock, front), host, r.clock, now);
      case Done(host, success) => FinishKeepsSimilar(r.table, IdealAfter(clock, front), host, success, r.clock);
    }
  }

  lemma {:induction false} EmptySimilar(clock: int)
    ensures Similar(EMPTY, EMPTY, clock)
  {
  }

  /** Evicting idle peers is unobservable: except for the table-full refusal, every answer is that of
      the limiter that never forgets. */
  lemma {:induction false} EvictionIsUnobservable(clock: int, events: seq<Event>, host: string, now: int)
    requires ValidRun(clock, events) && After(clock, events).clock <= now
    requires !Begin(After(clock, events).table, host, now).1.TableFull?
    ensures Begin(After(clock, events).table, host, now).1 == IdealBegin(IdealAfter(clock, events), host, now).1
  {
    hide Similar, Begin, IdealBegin, After, IdealAfter;
    RunsStaySimilar(clock, events);
    BeginKeepsSimilar(After(clock, events).table, IdealAfter(clock, events), host, After(clock, events).clock, now);
  }

  // ----- The in-flight count

  ghost function InflightOf(peers: map<string, Bucket>): int {
    if peers == map[] then 0
    else
      var host :| host in peers;
      peers[host].inflight + InflightOf(peers - {host})
  }

  lemma {:induction false} InflightSplit(peers: map<string, Bucket>, host: string)
    requires host in peers
    ensures InflightOf(peers) == peers[host].inflight + InflightOf(peers - {host})
  {
    var other :| other in peers && InflightOf(peers) == peers[other].inflight + InflightOf(peers - {other});
    if other != host {
      InflightSplit(peers - {other}, host);
      InflightSplit(peers - {host}, other);
      assert peers - {other} - {host} == peers - {host} - {other};
    }
  }

  lemma {:induction false} InflightUpdate(peers: map<string, Bucket>, host: string, b: Bucket)
    ensures InflightOf(peers[host := b]) == InflightOf(peers) + b.inflight - if host in peers then peers[host].inflight
            else 0
  {
    var u := peers[host := b];
    InflightSplit(u, host);
    if host in peers {
      InflightSplit(peers, host);
      assert u - {host} == peers - {host};
    } else {
      assert u - {host} == peers;
    }
  }

  lemma {:induction false} InflightOfSubset(peers: map<string, Bucket>, kept: map<string, Bucket>)
    requires forall host <- kept :: host in peers && kept[host] == peers[host]
    requires forall host <- peers :: host in kept || peers[host].inflight == 0
    ensures InflightOf(kept) == InflightOf(peers)
    decreases |peers|
  {
    if host :| host in peers && host !in kept {
      InflightSplit(peers, host);
      InflightOfSubset(peers - {host}, kept);
    } else {
      assert kept == peers;
    }
  }

  ghost predicate Exact(t: Table) {
    t.inflight == InflightOf(t.peers) && 0 <= t.inflight <= BURST && forall host <- t.peers ::
          t.peers[host].inflight >= 0
  }

  lemma {:induction false} ChargeKeepsExact(t: Table, host: string, b: Bucket, now: int)
    requires Exact(t) && t.inflight < BURST && b.inflight == (if host in t.peers then t.peers[host].inflight else 0)
    ensures Exact(Charge(t, host, b, now).0)
  {
    hide InflightOf;
    var r := Refilled(b, now);
    InflightUpdate(t.peers, host, r);
    InflightUpdate(t.peers, host, Bucket(r.tokens - REFILL, r.updated, r.inflight + 1));
  }

  lemma {:induction false} EvictKeepsExact(t: Table, now: int)
    requires Exact(t)
    ensures Exact(t.(peers := Evicted(t.peers, now)))
  {
    hide InflightOf;
    InflightOfSubset(t.peers, Evicted(t.peers, now));
  }

  lemma {:induction false} BeginKeepsExact(t: Table, host: string, now: int)
    requires Exact(t)
    ensures Exact(Begin(t, host, now).0)
  {
    hide Exact, Charge, Evicted;
    EvictKeepsExact(t, now);
    var u := t.(peers := Evicted(t.peers, now));
    if t.inflight < BURST {
      if host in t.peers {
        ChargeKeepsExact(t, host, t.peers[host], now);
      } else {
        StillUnmapped(StartRun(now).(table := t), host, now);
        ChargeKeepsExact(t, host, Bucket(FULL, now, 0), now);
        ChargeKeepsExact(u, host, Bucket(FULL, now, 0), now);
      }
    }
  }

  lemma {:induction false} FinishKeepsExact(t: Table, host: string, success: bool)
    requires Exact(t) && host in t.peers && t.peers[host].inflight > 0
    ensures Exact(Finish(t, host, success))
  {
    hide InflightOf;
    InflightUpdate(t.peers, host, Settled(t.peers[host], success));
    InflightSplit(t.peers, host);
    InflightNonNegative(t.peers - {host});
  }

  lemma {:induction false} InflightNonNegative(peers: map<string, Bucket>)
    requires forall host <- peers :: peers[host].inflight >= 0
    ensures InflightOf(peers) >= 0
  {
    if peers != map[] {
      var host :| host in peers && InflightOf(peers) == peers[host].inflight + InflightOf(peers - {host});
      InflightNonNegative(peers - {host});
    }
  }

  /** The global count is the sum over the mapped buckets and at most 32. */
  lemma {:induction false} InflightIsExact(clock: int, events: seq<Event>)
    requires ValidRun(clock, events)
    ensures Exact(After(clock, events).table)
  {
    hide Exact, Begin, Finish;
    if events == [] {
      EmptyExact();
    } else {
      var front, e := events[..|events| - 1], events[|events| - 1];
      InflightIsExact(clock, front);
      match e
      case Attempt(host, now) => BeginKeepsExact(After(clock, front).table, host, now);
      case Done(host, success) => FinishKeepsExact(After(clock, front).table, host, success);
    }
  }

  lemma {:induction false} EmptyExact()
    ensures Exact(EMPTY)
  {
  }
}
