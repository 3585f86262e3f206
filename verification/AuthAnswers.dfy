/** When the limiter refuses an attempt, told from what was admitted and what succeeded. */
module AuthAnswers {
  import opened AuthLimiter
  import opened AuthRuns
  import opened AuthCache

  // ----- What a peer has left, without looking at its bucket

  lemma {:induction false} PrefixIsValid(clock: int, events: seq<Event>, k: nat)
    requires ValidRun(clock, events) && k <= |events|
    ensures ValidRun(clock, events[..k])
    decreases |events|
  {
    if k < |events| {
      PrefixIsValid(clock, events[..|events| - 1], k);
      assert events[..|events| - 1][..k] == events[..k];
    } else {
      assert events[..k] == events;
    }
  }

  /** The run after the first `k` events. */
  ghost function Before(clock: int, events: seq<Event>, k: nat): Run
    requires ValidRun(clock, events) && k <= |events|
  {
    PrefixIsValid(clock, events, k);
    After(clock, events[..k])
  }

  /** A full burst at the `k`-th event, what time brought since, and less what was spent from then on. */
  ghost function Left(clock: int, events: seq<Event>, host: string, k: nat): int
    requires ValidRun(clock, events) && k < |events|
  {
    var r := After(clock, events);
    FULL + (r.clock - Before(clock, events, k + 1).clock)
    - (Spent(r, host) - Spent(Before(clock, events, k), host)) * REFILL
  }

  /** `level` is the least of these, and at most a full burst. */
  ghost predicate IsLeast(clock: int, events: seq<Event>, host: string, level: int)
    requires ValidRun(clock, events)
  {
    && level <= FULL && (forall k :: 0 <= k < |events| ==> level <= Left(clock, events, host, k))
    && (level == FULL || exists k :: 0 <= k < |events| && level == Left(clock, events, host, k))
  }

  /** What the table says the peer has at the present. */
  function Level(r: Run, host: string): int {
    if host in r.table.peers then Refilled(r.table.peers[host], r.clock).tokens else FULL
  }

  // ----- One event

  /** One more event: time passes first, then an attempt is charged or a refund is given, up to a full burst. */
  function Moved(level: int, elapsed: int, spent: int): int {
    Min(FULL, Min(FULL, level + elapsed) - spent * REFILL)
  }

  lemma {:induction false} EvictedAreFull(r: Run, host: string, now: int)
    requires Accounted(r) && r.clock <= now && host in r.table.peers && Idle(r.table.peers[host], now)
    ensures Moved(Level(r, host), now - r.clock, 0) == FULL
  {
    MappedCharged(r, host);
  }

  lemma {:induction false} ChargeMoves(t: Table, host: string, b: Bucket, now: int)
    requires b.tokens <= FULL
    ensures var (u, answer) := Charge(t, host, b, now);
            && host in u.peers && u.peers[host].updated >= now
            && u.peers[host].tokens == Refilled(b, now).tokens - (if answer.Admitted? then REFILL else 0)
            && u.peers.Keys == t.peers.Keys + {host}
            && forall other :: other in t.peers && other != host ==> u.peers[other] == t.peers[other]
  {
  }

  /** An attempt moves the level of its peer and lets time pass for the others. */
  lemma {:induction false} AttemptMoves(r: Run, peer: string, now: int, host: string)
    requires Accounted(r) && r.clock <= now
    ensures var s := Advance(r, Attempt(peer, now));
            && s.clock == now && Level(s, host) == Moved(Level(r, host), now - r.clock, Spent(s, host) - Spent(r, host))
            && 0 <= Spent(s, host) - Spent(r, host) <= 1
  {
    if host == peer {
      PeerMoves(r, peer, now);
    } else {
      OtherMoves(r, peer, now, host);
    }
  }

  lemma {:induction false} PeerMoves(r: Run, peer: string, now: int)
    requires Accounted(r) && r.clock <= now
    ensures var s := Advance(r, Attempt(peer, now));
            && s.clock == now && Level(s, peer) == Moved(Level(r, peer), now - r.clock, Spent(s, peer) - Spent(r, peer))
            && 0 <= Spent(s, peer) - Spent(r, peer) <= 1
  {
    hide Charge, Accounted, Begin, Evicted;
    BeginSplits(r.table, peer, now);
    if peer in r.table.peers {
      MappedCharged(r, peer);
    }
    StillUnmappedBy(r.table, peer, now);
    FoundBucket(r.table, peer, now);
    var u := Found(r.table, peer, now);
    hide Found;
    ChargeMoves(u, peer, u.peers[peer], now);
    ChargeAnswers(u, peer, u.peers[peer], now);
  }

  lemma {:induction false} StillUnmappedBy(t: Table, host: string, now: int)
    ensures host !in t.peers ==> host !in Evicted(t.peers, now)
  {
  }

  lemma {:induction false} FoundBucket(t: Table, peer: string, now: int)
    ensures Found(t, peer, now).peers[peer] == if peer in t.peers then t.peers[peer] else Bucket(FULL, now, 0)
    ensures forall host :: host != peer ==>
              if host in Found(t, peer, now).peers
              then host in t.peers && Found(t, peer, now).peers[host] == t.peers[host]
              else host !in t.peers || Idle(t.peers[host], now)
  {
  }

  lemma {:induction false} OtherMoves(r: Run, peer: string, now: int, host: string)
    requires Accounted(r) && r.clock <= now && host != peer
    ensures var s := Advance(r, Attempt(peer, now));
            && s.clock == now && Level(s, host) == Moved(Level(r, host), now - r.clock, 0)
            && Spent(s, host) == Spent(r, host)
  {
    hide Charge, Accounted, Begin;
    BeginSplits(r.table, peer, now);
    if host in r.table.peers {
      MappedCharged(r, host);
      if Idle(r.table.peers[host], now) {
        EvictedAreFull(r, host, now);
      }
    }
    FoundBucket(r.table, peer, now);
    var u := Found(r.table, peer, now);
    hide Found;
    if host in u.peers {
      MappedCharged(r, host);
    }
    ChargeOthers(u, peer, u.peers[peer], now, host);
  }

  lemma {:induction false} ChargeOthers(t: Table, peer: string, b: Bucket, now: int, host: string)
    requires host != peer
    ensures var u := Charge(t, peer, b, now).0;
            (host in u.peers <==> host in t.peers) && (host in t.peers ==> u.peers[host] == t.peers[host])
  {
  }

  lemma {:induction false} DoneMoves(r: Run, peer: string, success: bool, host: string)
    requires Accounted(r) && Allowed(r, Done(peer, success))
    ensures var s := Advance(r, Done(peer, success));
            && s.clock == r.clock && Level(s, host) == Moved(Level(r, host), 0, Spent(s, host) - Spent(r, host))
            && -1 <= Spent(s, host) - Spent(r, host) <= 0
  {
    if host in r.table.peers {
      MappedCharged(r, host);
    }
    MappedCharged(r, peer);
  }

  lemma {:induction false} StepMoves(r: Run, e: Event, host: string)
    requires Accounted(r) && Allowed(r, e)
    ensures var s := Advance(r, e);
            && s.clock >= r.clock && -1 <= Spent(s, host) - Spent(r, host) <= 1
            && (s.clock > r.clock ==> Spent(s, host) >= Spent(r, host))
            && Level(s, host) == Moved(Level(r, host), s.clock - r.clock, Spent(s, host) - Spent(r, host))
  {
    hide Advance, Accounted, Level, Moved;
    match e
    case Attempt(peer, now) => AttemptMoves(r, peer, now, host); AdvanceClock(r, e);
    case Done(peer, success) => DoneMoves(r, peer, success, host); AdvanceClock(r, e);
  }

  lemma {:induction false} AdvanceClock(r: Run, e: Event)
    requires Allowed(r, e)
    ensures Advance(r, e).clock == if e.Attempt? then e.now else r.clock
  {
    hide Begin;
  }

  // ----- Whole runs

  lemma {:induction false} LeftMoves(clock: int, events: seq<Event>, host: string, k: nat)
    requires ValidRun(clock, events) && k < |events|
    ensures var front := events[..|events| - 1];
            ValidRun(clock, front) &&
            var r, s := After(clock, front), After(clock, events);
            var step := s.clock - r.clock - (Spent(s, host) - Spent(r, host)) * REFILL;
            Left(clock, events, host, k) ==
            if k < |front| then Left(clock, front, host, k) + step
            else FULL - (Spent(s, host) - Spent(r, host)) * REFILL
  {
    hide Advance;
    var n := |events| - 1;
    var front := events[..n];
    assert events[..n + 1] == events;
    if k < n {
      assert front[..k] == events[..k] && front[..k + 1] == events[..k + 1];
      var r, s := Spent(After(clock, front), host), Spent(After(clock, events), host);
      Distribute(s - r, r - Spent(Before(clock, events, k), host));
    }
  }

  lemma {:induction false} Distribute(a: int, b: int)
    ensures (a + b) * REFILL == a * REFILL + b * REFILL
  {
  }

  /** The level of a peer is the least of what it has left since each event of the run, across evictions. */
  lemma {:induction false} LevelIsLeast(clock: int, events: seq<Event>, host: string)
    requires ValidRun(clock, events)
    ensures IsLeast(clock, events, host, Level(After(clock, events), host))
    decreases |events|
  {
    if events != [] {
      var n := |events| - 1;
      var front, e := events[..n], events[n];
      LevelIsLeast(clock, front, host);
      RunsAreAccounted(clock, front);
      hide Accounted, Advance, Level, Left, After;
      var r, s := After(clock, front), After(clock, events);
      assert s == Advance(r, e) by {
        AfterStep(clock, events);
      }
      StepMoves(r, e, host);
      forall k | 0 <= k < |events|
        ensures Left(clock, events, host, k) ==
                if k < n then Left(clock, front, host,
                    k) + (s.clock - r.clock - (Spent(s, host) - Spent(r, host)) * REFILL)
                else FULL - (Spent(s, host) - Spent(r, host)) * REFILL
      {
        LeftMoves(clock, events, host, k);
      }
      LeastMoves(clock, events, host, Level(r, host), s.clock - r.clock, Spent(s, host) - Spent(r, host));
    } else {
      hide Level;
      StartLevel(clock, host);
    }
  }

  lemma {:induction false} StartLevel(clock: int, host: string)
    ensures Level(StartRun(clock), host) == FULL
  {
  }

  lemma {:induction false} AfterStep(clock: int, events: seq<Event>)
    requires ValidRun(clock, events) && events != []
    ensures var front := events[..|events| - 1];
            ValidRun(clock, front) && Allowed(After(clock, front), events[|events| - 1])
            && After(clock, events) == Advance(After(clock, front), events[|events| - 1])
  {
    hide Advance, Allowed;
  }

  lemma {:induction false} LeastMoves(clock: int, events: seq<Event>, host: string, level: int, elapsed: int,
          spent: int)
    requires ValidRun(clock, events) && events != [] && ValidRun(clock, events[..|events| - 1])
    requires IsLeast(clock, events[..|events| - 1], host, level) && elapsed >= 0 && -1 <= spent <= 1
    requires elapsed > 0 ==> spent >= 0
    requires var n := |events| - 1;
             forall k :: 0 <= k < |events| ==>
               Left(clock, events, host, k) ==
               if k < n then Left(clock, events[..n], host, k) + (elapsed - spent * REFILL) else FULL - spent * REFILL
    ensures IsLeast(clock, events, host, Moved(level, elapsed, spent))
  {
    hide Left;
    var n := |events| - 1;
    var front, moved := events[..n], Moved(level, elapsed, spent);
    if level == FULL || level + elapsed >= FULL {
      assert moved == FULL || moved == Left(clock, events, host, n);
    } else {
      var k :| 0 <= k < n && level == Left(clock, front, host, k);
      assert moved == FULL || moved == Left(clock, events, host, k);
    }
  }

  /** What decides an attempt: since some event of the run the peer would have spent more than a full burst and what
      time brought. */
  ghost predicate Overdrawn(clock: int, events: seq<Event>, host: string, now: int)
    requires ValidRun(clock, events)
  {
    exists k :: 0 <= k < |events| &&
      (Spent(After(clock, events), host) - Spent(Before(clock, events, k), host) + 1) * 3_000_000_000
      > 32 * 3_000_000_000 + (now - Before(clock, events, k + 1).clock)
  }

  /** An attempt that finds the limiter neither busy nor full is refused exactly if it overdraws: since some event of
      the run, the peer's attempts that did not succeed, this one included, exceed a burst of 32 and one for every three
      seconds. */
  lemma {:induction false} ExhaustedIff(clock: int, events: seq<Event>, host: string, now: int)
    requires ValidRun(clock, events) && After(clock, events).clock <= now
    requires var answer := Begin(After(clock, events).table, host, now).1; !answer.Busy? && !answer.TableFull?
    ensures Begin(After(clock, events).table, host, now).1.Exhausted? <==> Overdrawn(clock, events, host, now)
    ensures Begin(After(clock, events).table, host, now).1.Admitted? <==> !Overdrawn(clock, events, host, now)
  {
    var r := After(clock, events);
    LevelIsLeast(clock, events, host);
    RunsAreAccounted(clock, events);
    hide Level, Left, Accounted, Before, After;
    AnswerByLevel(r, host, now);
    var level := Level(r, host);
    forall k | 0 <= k < |events|
      ensures Left(clock, events, host, k) + (now - r.clock) < REFILL <==>
              (Spent(r, host) - Spent(Before(clock, events, k), host) + 1) * REFILL
              > FULL + (now - Before(clock, events, k + 1).clock)
    {
      LeftIs(clock, events, host, k);
      Distribute(Spent(r, host) - Spent(Before(clock, events, k), host), 1);
    }
  }

  lemma {:induction false} LeftIs(clock: int, events: seq<Event>, host: string, k: nat)
    requires ValidRun(clock, events) && k < |events|
    ensures Left(clock, events, host, k) ==
            FULL + (After(clock, events).clock - Before(clock, events, k + 1).clock)
            - (Spent(After(clock, events), host) - Spent(Before(clock, events, k), host)) * REFILL
  {
  }

  lemma {:induction false} AnswerByLevel(r: Run, host: string, now: int)
    requires Accounted(r) && r.clock <= now
    requires var answer := Begin(r.table, host, now).1; !answer.Busy? && !answer.TableFull?
    ensures Begin(r.table, host, now).1 == if Level(r, host) + (now - r.clock) < REFILL then Exhausted else Admitted
  {
    if host in r.table.peers {
      MappedCharged(r, host);
    }
    hide Accounted;
  }

  // ----- What follows

  /** Only a peer that spent a whole burst is refused: attempts that succeeded do not count. */
  lemma {:induction false} RefusedHaveSpent(clock: int, events: seq<Event>, host: string, now: int)
    requires ValidRun(clock, events) && After(clock, events).clock <= now
    requires Begin(After(clock, events).table, host, now).1.Exhausted?
    ensures Spent(After(clock, events), host) >= 32
  {
    ExhaustedIff(clock, events, host, now);
    var k :| 0 <= k < |events| &&
      (Spent(After(clock, events), host) - Spent(Before(clock, events, k), host) + 1) * 3_000_000_000
      > 32 * 3_000_000_000 + (now - Before(clock, events, k + 1).clock);
    ClockGrows(clock, events, k + 1);
    SpentIsNatural(clock, events, host, k);
    hide After, Before;
  }

  lemma {:induction false} SpentIsNatural(clock: int, events: seq<Event>, host: string, k: nat)
    requires ValidRun(clock, events) && k <= |events|
    ensures Spent(Before(clock, events, k), host) >= 0
  {
    PrefixIsValid(clock, events, k);
    RunsAreAccounted(clock, events[..k]);
    var r := Before(clock, events, k);
    if host in r.table.peers {
      MappedCharged(r, host);
    } else {
      assert Uncharged(r, host);
    }
  }

  lemma {:induction false} ClockGrows(clock: int, events: seq<Event>, k: nat)
    requires ValidRun(clock, events) && k <= |events|
    ensures Before(clock, events, k).clock <= After(clock, events).clock
    decreases |events|
  {
    hide Advance;
    if k == |events| {
      assert events[..k] == events;
    } else {
      var n := |events| - 1;
      ClockGrows(clock, events[..n], k);
      assert events[..n][..k] == events[..k];
      AdvanceClock(After(clock, events[..n]), events[n]);
    }
  }

  /** The three seconds an exhausted peer is told to wait are enough: after them its next attempt is admitted, unless
      32 attempts are in flight. */
  lemma {:induction false} RetryAfterSuffices(clock: int, events: seq<Event>, host: string, now: int, later: int)
    requires ValidRun(clock, events) && After(clock, events).clock <= now
    requires Begin(After(clock, events).table, host, now).1.Exhausted?
    requires later >= now + 3 * 1_000_000_000
    ensures var (table, _) := Begin(After(clock, events).table, host, now);
            table.inflight < BURST && Begin(table, host, later).1.Admitted?
  {
    RunsAreAccounted(clock, events);
    var r := After(clock, events);
    hide After, Accounted;
    TickKeepsAccounts(r, now);
    AttemptKeepsAccounts(r, host, now);
    var s := Advance(r, Attempt(host, now));
    AttemptMoves(r, host, now, host);
    ExhaustedIsMapped(r.table, host, now);
    MappedCharged(s, host);
  }

  // ----- The other refusals

  /** Attempts are refused as busy exactly while 32 are in flight, and for a full table exactly if the peer is not among
      4096 that are known, each with an attempt in flight or met within the last five minutes. */
  lemma {:induction false} BusyOrFullIff(clock: int, events: seq<Event>, host: string, now: int)
    requires ValidRun(clock, events) && After(clock, events).clock <= now
    ensures var t := After(clock, events).table;
            var answer := Begin(t, host, now).1;
            && (answer.Busy? <==> InflightOf(t.peers) == 32)
            && (answer.TableFull? <==>
                  && InflightOf(t.peers) != 32 && host !in t.peers
                  && |t.peers| == 4096 && forall peer <- t.peers ::
                      t.peers[peer].inflight > 0 || now - t.peers[peer].updated < 300_000_000_000)
  {
    var t := After(clock, events).table;
    InflightIsExact(clock, events);
    TableIsBounded(clock, events);
    RunsAreAccounted(clock, events);
    hide InflightOf, After, Charge;
    BeginSplits(t, host, now);
    var kept := Evicted(t.peers, now);
    KeptSize(t.peers, now);
    forall peer | peer in t.peers
      ensures t.peers[peer].inflight >= 0
    {
      MappedCharged(After(clock, events), peer);
    }
  }

  lemma {:induction false} KeptSize(peers: map<string, Bucket>, now: int)
    ensures |Evicted(peers, now)| <= |peers|
    ensures |Evicted(peers, now)| == |peers| <==> forall peer <- peers :: !Idle(peers[peer], now)
  {
    var kept := Evicted(peers, now);
    assert kept.Keys <= peers.Keys && |kept| == |kept.Keys| && |peers| == |peers.Keys|;
    Fewer(kept.Keys, peers.Keys);
  }

  lemma {:induction false} Fewer(a: set<string>, b: set<string>)
    requires a <= b
    ensures |a| <= |b| && (|a| == |b| <==> a == b)
  {
    if x :| x in a {
      Fewer(a - {x}, b - {x});
      assert a == a - {x} + {x} && b == b - {x} + {x};
    }
  }

  /** The table never holds more than 4096 peers. */
  lemma {:induction false} TableIsBounded(clock: int, events: seq<Event>)
    requires ValidRun(clock, events)
    ensures |After(clock, events).table.peers| <= 4096
    decreases |events|
  {
    if events != [] {
      TableIsBounded(clock, events[..|events| - 1]);
      AfterStep(clock, events);
      hide After;
      var r, e := After(clock, events[..|events| - 1]), events[|events| - 1];
      StepIsBounded(r, e);
    }
  }

  lemma {:induction false} StepIsBounded(r: Run, e: Event)
    requires Allowed(r, e) && |r.table.peers| <= 4096
    ensures |Advance(r, e).table.peers| <= 4096
  {
    if e.Attempt? {
      hide Charge;
      KeptSize(r.table.peers, e.now);
      BeginSplits(r.table, e.host, e.now);
      var u := Found(r.table, e.host, e.now);
      ChargeSize(u, e.host, e.now);
    } else {
      var more := Finish(r.table, e.host, e.success);
      assert more.peers.Keys == r.table.peers.Keys && |more.peers| == |more.peers.Keys|;
      assert |r.table.peers| == |r.table.peers.Keys|;
    }
  }

  lemma {:induction false} ChargeSize(t: Table, host: string, now: int)
    requires host in t.peers
    ensures |Charge(t, host, t.peers[host], now).0.peers| == |t.peers|
  {
    var u := Charge(t, host, t.peers[host], now).0;
    assert u.peers.Keys == t.peers.Keys && |u.peers| == |u.peers.Keys| && |t.peers| == |t.peers.Keys|;
  }

  lemma {:induction false} ExhaustedIsMapped(t: Table, host: string, now: int)
    requires Begin(t, host, now).1.Exhausted?
    ensures host in Begin(t, host, now).0.peers && Begin(t, host, now).0.inflight == t.inflight < BURST
  {
  }
}
