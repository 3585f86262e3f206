/** When the failover controller goes back from an emergency node to a primary one. */
module ControllerFailback {
  import opened Rank
  import opened Seqs
  import opened Controller
  import opened ControllerChoice
  import opened ControllerRuns
  import Lex

  // ----- What a check sees

  /** The cycle checks for a way back: automatic mode, nothing pending, a working emergency node, and the check is
      due. */
  predicate ChecksBack(m: Moment) {
    var o := m.observation;
    && o.wan && o.control.enabled && EffectiveMode(o.control, m.At()).Auto?
    && !m.before.status.InternetDown? && m.before.recoveryGraceUntil <= m.At() && m.before.qualificationSince <= 0
    && o.activeOk && o.active != "" && o.active != DIRECT && CurrentPool(o).Emergency?
    && m.before.nextRecoveryCheck <= m.At()
  }

  /** A primary node that works, does not cool down and was tested since the refresh that was asked for. */
  predicate Returnable(m: Moment, n: Node) {
    && n in m.observation.nodes && n.alive && n.pool.Primary? && n.name != ""
    && n.name !in Purge(m.before.cooldowns, m.At())
    && m.before.recoveryRequestedAt > 0 && n.lastTestedAt >= m.before.recoveryRequestedAt
  }

  /** The check names `target`, the best of these. */
  ghost predicate NamesBack(rating: Rating, m: Moment, target: string) {
    exists best :: Returnable(m, best) && best.name == target && forall n :: Returnable(m, n) ==>
          !Better(rating, n, best)
  }

  predicate GoesBack(d: Decision) {
    d.action.Select? && d.reason.HigherPriorityStable?
  }

  predicate AsksRefresh(d: Decision) {
    d.action.Refresh? && d.reason.RefreshPrimaryBeforeFailback?
  }

  lemma {:induction false} OneName(rating: Rating, m: Moment, a: string, b: string)
    requires NamesBack(rating, m, a) && NamesBack(rating, m, b)
    ensures a == b
  {
    var x :| Returnable(m, x) && x.name == a && forall n :: Returnable(m, n) ==> !Better(rating, n, x);
    var y :| Returnable(m, y) && y.name == b && forall n :: Returnable(m, n) ==> !Better(rating, n, y);
    Lex.Total(a, b);
  }

  /** The list the source takes the head of, told from the observation. */
  lemma {:induction false} HeadIsNamed(rating: Rating, m: Moment) returns (kept: seq<Node>)
    ensures kept == Filter(Retested(m.before.recoveryRequestedAt),
              Candidates(rating, m.observation.nodes, Primary, Purge(m.before.cooldowns, m.At()), ""))
    ensures if kept == [] then forall n :: !Returnable(m, n)
            else kept[0].pool.Primary? && NamesBack(rating, m, kept[0].name)
  {
    var keep, nodes, cooldowns := Retested(m.before.recoveryRequestedAt), m.observation.nodes,
      Purge(m.before.cooldowns, m.At());
    var c := Candidates(rating, nodes, Primary, cooldowns, "");
    kept := Filter(keep, c);
    CandidatesMembers(rating, nodes, Primary, cooldowns, "");
    FilterMembers(keep, c);
    FirstKeptIsBest(rating, keep, nodes, Primary, cooldowns, "");
    assert forall n :: Returnable(m, n) <==> n in kept;
    if kept != [] {
      assert kept[0] in kept;
    }
  }

  // ----- One cycle

  ghost predicate SameWayBack(a: State, b: State) {
    && b.recoveryStreak == a.recoveryStreak && b.recoveryTarget == a.recoveryTarget
    && b.recoveryRequestedAt == a.recoveryRequestedAt && b.nextRecoveryCheck == a.nextRecoveryCheck
  }

  ghost predicate Unrelated(s: State, out: Outcome) {
    && SameWayBack(s, out.state) && !out.decision.reason.HigherPriorityStable?
    && !out.decision.reason.RefreshPrimaryBeforeFailback? && !out.decision.reason.FailbackProbe?
  }

  lemma {:induction false} ReplacementIsUnrelated(rating: Rating, s: State, o: Observation, policy: Policy, now: int,
          emergency: bool, counts: bool)
    ensures Unrelated(s, Replacement(rating, s, o, policy, now, emergency, counts))
  {
    hide Candidates, CoolPool;
  }

  lemma {:induction false} EmergencyIsUnrelated(rating: Rating, s: State, o: Observation, policy: Policy, now: int)
    ensures Unrelated(s, EmergencyStep(rating, s, o, policy, now))
  {
    hide Replacement;
    ReplacementIsUnrelated(rating, EmergencyFailing(s, o, policy), o, policy, now, true,
      CurrentPool(o) == Emergency && o.active != "");
  }

  lemma {:induction false} DegradedIsUnrelated(rating: Rating, s: State, o: Observation, policy: Policy, now: int)
    ensures Unrelated(s, Degraded(rating, s, o, policy, now))
  {
    hide Replacement;
    var t := s.(status := ProxyDegraded, rankTarget := "", rankStreak := 0,
                failureStreak := if o.active == "" || o.active == DIRECT then policy.failureLimit
                    else s.failureStreak + 1);
    ReplacementIsUnrelated(rating, t, o, policy, now, false, o.active != "");
  }

  /** While the active node works the way back is looked at exactly from an emergency node when it is due. */
  lemma {:induction false} HealthyLooksBack(rating: Rating, s: State, o: Observation, policy: Policy, now: int)
    ensures var out := Healthy(rating, s, o, policy, now);
            if s.activePool.Emergency? && now >= s.nextRecoveryCheck then
              var t := ExpireWindow(s.(status := ProxyOk, failureStreak := 0), policy, now);
              out == Failback(rating, t, o, policy, now)
            else Unrelated(s, out)
  {
    hide Candidates, Failback, Outranks;
  }

  /** A cycle that checks does what the way back says, with the fields it had before. */
  lemma {:induction false} CheckingCycle(rating: Rating, policy: Policy, m: Moment) returns (s: State)
    requires Ran(rating, policy, m) && ChecksBack(m)
    ensures Outcome(m.after, m.decision) == Failback(rating, s, m.observation, policy, m.At())
    ensures SameWayBack(m.before, s) && s.cooldowns == Purge(m.before.cooldowns, m.At())
    ensures s.nextPoolRefresh == m.before.nextPoolRefresh
  {
    hide Healthy, Failback, Degraded, EmergencyStep, Steered, Qualifying;
    var a, o := Arrived(m.before, m.observation, m.wall), m.observation;
    var t := (if a.active != o.active then a.(rankTarget := "", rankStreak := 0) else a)
             .(active := o.active, activePool := CurrentPool(o));
    HealthyLooksBack(rating, t, o, policy, m.At());
    s := ExpireWindow(t.(status := ProxyOk, failureStreak := 0), policy, m.At());
  }

  lemma {:induction false} OtherCycle(rating: Rating, policy: Policy, m: Moment)
    requires Ran(rating, policy, m) && !ChecksBack(m)
    ensures Unrelated(m.before, Outcome(m.after, m.decision))
  {
    hide Healthy, Degraded, EmergencyStep, TestedSince;
    var a, o := Arrived(m.before, m.observation, m.wall), m.observation;
    var t := (if a.active != o.active then a.(rankTarget := "", rankStreak := 0) else a)
             .(active := o.active, activePool := CurrentPool(o));
    HealthyLooksBack(rating, t, o, policy, m.At());
    DegradedIsUnrelated(rating, t, o, policy, m.At());
    EmergencyIsUnrelated(rating, a, o, policy, m.At());
  }

  /** What a check answers and leaves, told from what it sees. */
  lemma {:induction false} CheckAnswers(rating: Rating, policy: Policy, m: Moment, target: string)
    requires Ran(rating, policy, m) && ChecksBack(m)
    ensures m.after.nextRecoveryCheck == m.At() + Seconds(policy.recoveryInterval)
    ensures var streak := if m.before.recoveryTarget == target then m.before.recoveryStreak + 1 else 1;
            NamesBack(rating, m, target) ==>
              if streak >= policy.recoveryStableChecks then
                && m.decision == Decision(Select, target, Primary, HigherPriorityStable)
                && m.after.recoveryTarget == "" && m.after.recoveryStreak == 0 && m.after.recoveryRequestedAt == 0
              else
                && m.decision == Decision(Keep, target, Primary, FailbackProbe)
                && m.after.recoveryTarget == target && m.after.recoveryStreak == streak
                && m.after.recoveryRequestedAt == m.before.recoveryRequestedAt
    ensures (forall n :: !Returnable(m, n)) ==>
              if m.before.recoveryRequestedAt == 0 || m.At() >= m.before.nextPoolRefresh then
                && m.decision == Decision(Refresh, "", Primary, RefreshPrimaryBeforeFailback)
                && m.after.recoveryTarget == "" && m.after.recoveryStreak == 0
                && m.after.recoveryRequestedAt == m.At()
                && m.after.nextPoolRefresh == m.At() + Seconds(policy.poolRefreshCooldown)
              else
                && m.decision.action.Keep? && m.decision.target == ""
                && m.after.recoveryTarget == m.before.recoveryTarget
                && m.after.recoveryStreak == m.before.recoveryStreak
                && m.after.recoveryRequestedAt == m.before.recoveryRequestedAt
    ensures (exists t :: NamesBack(rating, m, t)) <==> exists n :: Returnable(m, n)
  {
    var s := CheckingCycle(rating, policy, m);
    var kept := HeadIsNamed(rating, m);
    hide Candidates, Ran, ChecksBack, NamesBack, Returnable, Seconds;
    if kept != [] {
      if NamesBack(rating, m, target) {
        OneName(rating, m, target, kept[0].name);
      }
      NamedIsReturnable(rating, m, kept[0].name);
    } else if t :| NamesBack(rating, m, t) {
      NamedIsReturnable(rating, m, t);
    }
  }

  lemma {:induction false} NamedIsReturnable(rating: Rating, m: Moment, target: string)
    requires NamesBack(rating, m, target)
    ensures target != "" && exists n :: Returnable(m, n)
  {
  }

  // ----- Whole runs

  /** How many checks before cycle `j` named `target`, since the last one that named another node, asked for a refresh
      or went back. */
  ghost function Probes(rating: Rating, run: seq<Moment>, j: nat, target: string): nat
    requires j <= |run|
  {
    if j == 0 then 0
    else
      var m := run[j - 1];
      if !ChecksBack(m) then Probes(rating, run, j - 1, target)
      else if GoesBack(m.decision) || AsksRefresh(m.decision) then 0
      else if NamesBack(rating, m, target) then Probes(rating, run, j - 1, target) + 1
      else if exists n :: Returnable(m, n) then 0
      else Probes(rating, run, j - 1, target)
  }

  /** When the refresh was asked for that the next failback waits for; 0 if none was. */
  function AskedAt(run: seq<Moment>, j: nat): int
    requires j <= |run|
  {
    if j == 0 then 0
    else if AsksRefresh(run[j - 1].decision) then run[j - 1].At()
    else if GoesBack(run[j - 1].decision) then 0
    else AskedAt(run, j - 1)
  }

  lemma {:induction false} ProbesAreCounted(rating: Rating, policy: Policy, run: seq<Moment>, j: nat, target: string)
    requires IsRun(rating, policy, run) && j < |run| && run[0].before == INITIAL && target != ""
    ensures Probes(rating, run, j, target) ==
            if run[j].before.recoveryTarget == target then run[j].before.recoveryStreak else 0
    ensures Probes(rating, run, j, target) == 0 || Probes(rating, run, j, target) < policy.recoveryStableChecks
    ensures run[j].before.recoveryRequestedAt == AskedAt(run, j)
    decreases j
  {
    hide Ran, Now, ChecksBack, NamesBack, Returnable;
    if j > 0 {
      var h: nat := j - 1;
      ProbesAreCounted(rating, policy, run, h, target);
      assert HandedOver(run, h) && Ran(rating, policy, run[h]);
      if ChecksBack(run[h]) {
        CheckAnswers(rating, policy, run[h], target);
        if t :| NamesBack(rating, run[h], t) {
          CheckAnswers(rating, policy, run[h], t);
          if NamesBack(rating, run[h], target) {
            OneName(rating, run[h], t, target);
          }
        }
      } else {
        OtherCycle(rating, policy, run[h]);
      }
    }
  }

  /** A run from the initial state goes back to a node in exactly the checks that name it when, with this one, as many
      in a row did as the policy asks for. */
  lemma {:induction false} GoesBackExactly(rating: Rating, policy: Policy, run: seq<Moment>, j: nat, target: string)
    requires IsRun(rating, policy, run) && j < |run| && run[0].before == INITIAL && target != ""
    ensures GoesBack(run[j].decision) && run[j].decision.target == target <==>
              && ChecksBack(run[j]) && NamesBack(rating, run[j], target)
              && Probes(rating, run, j, target) + 1 >= policy.recoveryStableChecks
    ensures policy.recoveryStableChecks > 0 ==> Probes(rating, run, j, target) + 1 <= policy.recoveryStableChecks
    ensures GoesBack(run[j].decision) ==> run[j].decision.target != ""
  {
    hide Ran, Now, ChecksBack, NamesBack, Returnable, Probes;
    ProbesAreCounted(rating, policy, run, j, target);
    assert Ran(rating, policy, run[j]);
    if ChecksBack(run[j]) {
      CheckAnswers(rating, policy, run[j], target);
      if t :| NamesBack(rating, run[j], t) {
        CheckAnswers(rating, policy, run[j], t);
        NamedIsReturnable(rating, run[j], t);
        if NamesBack(rating, run[j], target) {
          OneName(rating, run[j], t, target);
        }
      }
    } else {
      OtherCycle(rating, policy, run[j]);
    }
  }

  /** A refresh is asked for in exactly the checks that see no primary node tested since the last one, if none was asked
      for since the last way back or the refresh period is over. */
  lemma {:induction false} AsksRefreshExactly(rating: Rating, policy: Policy, run: seq<Moment>, j: nat)
    requires IsRun(rating, policy, run) && j < |run| && run[0].before == INITIAL
    ensures AsksRefresh(run[j].decision) <==>
              && ChecksBack(run[j]) && (forall n :: !Returnable(run[j], n))
              && (AskedAt(run, j) == 0 || run[j].At() >= run[j].before.nextPoolRefresh)
  {
    hide Ran, Now, ChecksBack, NamesBack, Returnable, AskedAt;
    ProbesAreCounted(rating, policy, run, j, "any");
    assert Ran(rating, policy, run[j]);
    if ChecksBack(run[j]) {
      CheckAnswers(rating, policy, run[j], "any");
      if t :| NamesBack(rating, run[j], t) {
        CheckAnswers(rating, policy, run[j], t);
      }
    } else {
      OtherCycle(rating, policy, run[j]);
    }
  }

  /** Two successive checks are a recovery interval apart, whatever the clock does; the second is due just then. */
  lemma {:induction false} ChecksAreSpaced(rating: Rating, policy: Policy, run: seq<Moment>, i: nat, j: nat)
    requires IsRun(rating, policy, run) && i < j < |run| && ChecksBack(run[i])
    requires forall k :: i < k < j ==> !ChecksBack(run[k])
    ensures run[j].before.nextRecoveryCheck == run[i].At() + Seconds(policy.recoveryInterval)
    ensures ChecksBack(run[j]) ==> run[j].At() >= run[i].At() + Seconds(policy.recoveryInterval)
    decreases j
  {
    hide Ran, Now, ChecksBack, Seconds, NamesBack, Returnable;
    if ChecksBack(run[j]) {
      ChecksAreDue(run[j]);
    }
    var h: nat := j - 1;
    assert HandedOver(run, h) && Ran(rating, policy, run[h]);
    if i < h {
      ChecksAreSpaced(rating, policy, run, i, h);
      OtherCycle(rating, policy, run[h]);
    } else {
      CheckAnswers(rating, policy, run[h], "any");
    }
  }

  lemma {:induction false} ChecksAreDue(m: Moment)
    requires ChecksBack(m)
    ensures m.before.nextRecoveryCheck <= m.At()
  {
  }

  // ----- The default policy

  function EmergencyInUse(now: int, tested: int): Observation {
    var metrics := Metrics(0, 0.0, 0.0, 0, 0);
    Observation(now, true, true, "e", Emergency,
                [Node("p", Primary, true, metrics, tested), Node("e", Emergency, true, metrics, tested)],
                Control(true, Auto, "", 0))
  }

  /** The default policy asks for a refresh, sees the retested node once, and goes back when it sees it again. */
  lemma {:induction false} DefaultGoesBackAtSecond(rating: Rating) returns (run: seq<Moment>)
    ensures IsRun(rating, DEFAULT_POLICY, run) && ClockRuns(run) && |run| == 3 && run[0].before == INITIAL
    ensures run[0].observation == EmergencyInUse(100, 50) && AsksRefresh(run[0].decision)
    ensures run[1].observation == EmergencyInUse(200, 150) && run[1].decision.reason.FailbackProbe?
    ensures run[2].observation == EmergencyInUse(220, 150) && GoesBack(run[2].decision)
    ensures run[2].decision.target == "p"
  {
    hide Ran, Now, ChecksBack, NamesBack, EmergencyInUse;
    assert Seconds(DEFAULT_POLICY.recoveryInterval) == 20;
    hide Seconds;
    var a := Cycle(rating, INITIAL, 100, 50);
    assert forall n :: !Returnable(a, n);
    hide Returnable;
    CheckAnswers(rating, DEFAULT_POLICY, a, "p");
    var b := Cycle(rating, a.after, 200, 150);
    SeesPrimary(rating, b, 150);
    CheckAnswers(rating, DEFAULT_POLICY, b, "p");
    var c := Cycle(rating, b.after, 220, 150);
    SeesPrimary(rating, c, 150);
    CheckAnswers(rating, DEFAULT_POLICY, c, "p");
    run := [a, b, c];
  }

  lemma {:induction false} Cycle(rating: Rating, before: State, now: int, tested: int) returns (m: Moment)
    requires before.cooldowns == map[] && before.qualificationSince == 0 && !before.status.InternetDown?
    requires before.recoveryGraceUntil <= now && before.nextRecoveryCheck <= now && now > 0
    ensures Ran(rating, DEFAULT_POLICY, m) && m.before == before && m.observation == EmergencyInUse(now, tested)
    ensures m.At() == now && ChecksBack(m) && Purge(m.before.cooldowns, m.At()) == map[]
    ensures m.after.cooldowns == map[] && m.after.qualificationSince == 0 && !m.after.status.InternetDown?
    ensures m.after.recoveryGraceUntil == before.recoveryGraceUntil
  {
    hide Candidates, Filter;
    var o := EmergencyInUse(now, tested);
    var out := StepState(rating, before, o, DEFAULT_POLICY, now);
    m := Moment(before, o, now, out.state, out.decision);
  }

  lemma {:induction false} SeesPrimary(rating: Rating, m: Moment, tested: int)
    requires m.observation == EmergencyInUse(m.At(), tested) && Purge(m.before.cooldowns, m.At()) == map[]
    requires 0 < m.before.recoveryRequestedAt <= tested
    ensures NamesBack(rating, m, "p")
  {
    var p := m.observation.nodes[0];
    assert p in m.observation.nodes && forall n :: Returnable(m, n) ==> n == p;
    Lex.Total("p", "p");
    assert Returnable(m, p);
  }
}
