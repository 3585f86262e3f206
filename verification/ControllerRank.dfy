/** Rank hysteresis of the failover controller over whole runs. */
module ControllerRank {
  import opened Wrappers
  import opened Rank
  import opened Controller
  import opened ControllerChoice
  import opened ControllerRuns

  predicate IsSwitch(d: Decision) {
    d.action.Select? && d.reason.HigherRankStable?
  }

  // ----- One cycle

  /** A rank check of this cycle found `target`: alive, primary, not cooling down, not the active
      node, the best such node, and at least 75 points better than the active node. */
  ghost predicate Beats(rating: Rating, m: Moment, target: string) {
    var current := NodeByName(m.observation.nodes, m.observation.active);
    var cooldowns := Purge(m.before.cooldowns, m.At());
    && current.Some?
    && exists best <- m.observation.nodes ::
         && best.name == target
         && IsBest(rating, best, m.observation.nodes, Primary, cooldowns, m.observation.active)
         && rating(best.metrics) >= rating(current.value.metrics) + 75.0
  }

  /** The three things a cycle may do to the rank fields without switching. */
  ghost predicate Untouched(m: Moment) {
    && m.after.nextRankCheck == m.before.nextRankCheck
    && ((m.after.rankStreak == m.before.rankStreak && m.after.rankTarget == m.before.rankTarget)
        || m.after.rankStreak == 0)
  }

  ghost predicate Checked(policy: Policy, m: Moment) {
    && policy.rankUpgradeInterval > 0
    && m.At() >= m.before.nextRankCheck
    && m.after.nextRankCheck == m.At() + Seconds(policy.rankUpgradeInterval)
  }

  ghost predicate Counted(rating: Rating, policy: Policy, m: Moment) {
    && Checked(policy, m) && Beats(rating, m, m.after.rankTarget)
    && (m.after.rankStreak == 1
        || (m.before.rankTarget == m.after.rankTarget && m.after.rankStreak == m.before.rankStreak + 1))
    && m.after.rankStreak < 2
  }

  ghost predicate Switched(rating: Rating, policy: Policy, m: Moment) {
    && policy.rankUpgradeInterval > 0 && m.At() >= m.before.nextRankCheck
    && m.after.nextRankCheck == m.At() + 60 && m.after.rankStreak == 0
    && m.before.rankStreak >= 1 && m.before.rankTarget == m.decision.target
    && Beats(rating, m, m.decision.target)
  }

  lemma {:induction false} RankFieldsOfHealthy(rating: Rating, s: State, o: Observation, policy: Policy, now: int)
    ensures var out := Healthy(rating, s, o, policy, now);
            var due, t := RankCheckDue(s, policy, now), out.state;
            if IsSwitch(out.decision) then
              && due && Outranks(rating, s, o) && t.nextRankCheck == now + 60 && t.rankStreak == 0
              && s.rankStreak >= 1 && s.rankTarget == out.decision.target
              && out.decision.target == Candidates(rating, o.nodes, Primary, s.cooldowns, o.active)[0].name
            else if due then
              && t.nextRankCheck == now + Seconds(policy.rankUpgradeInterval)
              && (t.rankStreak == 0 ||
                  (Outranks(rating, s, o) && t.rankStreak < 2
                   && t.rankTarget == Candidates(rating, o.nodes, Primary, s.cooldowns, o.active)[0].name
                   && t.rankStreak == if s.rankTarget == t.rankTarget then s.rankStreak + 1 else 1))
            else t.nextRankCheck == s.nextRankCheck && t.rankStreak == s.rankStreak && t.rankTarget == s.rankTarget
  {
    hide Candidates;
  }

  lemma {:induction false} RankFieldsOfReplacement(rating: Rating, s: State, o: Observation, policy: Policy, now: int,
          emergency: bool, counts: bool)
    ensures var out := Replacement(rating, s, o, policy, now, emergency, counts);
            && out.state.nextRankCheck == s.nextRankCheck && out.state.rankStreak == s.rankStreak
            && out.state.rankTarget == s.rankTarget && !out.decision.reason.HigherRankStable?
  {
    hide Candidates, CoolPool;
  }

  /** The rank fields across the automatic branch. */
  ghost predicate RankOutcome(rating: Rating, s: State, o: Observation, policy: Policy, now: int, out: Outcome) {
    var t := out.state;
    if IsSwitch(out.decision) then
      && policy.rankUpgradeInterval > 0 && now >= s.nextRankCheck
      && t.nextRankCheck == now + 60 && t.rankStreak == 0
      && s.rankStreak >= 1 && s.rankTarget == out.decision.target
      && Outranks(rating, s, o)
          && out.decision.target == Candidates(rating, o.nodes, Primary, s.cooldowns, o.active)[0].name
    else
      || (t.nextRankCheck == s.nextRankCheck
          && ((t.rankStreak == s.rankStreak && t.rankTarget == s.rankTarget) || t.rankStreak == 0))
      || (policy.rankUpgradeInterval > 0 && now >= s.nextRankCheck
          && t.nextRankCheck == now + Seconds(policy.rankUpgradeInterval)
          && (t.rankStreak == 0 ||
              (Outranks(rating, s, o) && t.rankStreak < 2
               && t.rankTarget == Candidates(rating, o.nodes, Primary, s.cooldowns, o.active)[0].name
               && (t.rankStreak == 1 || (s.rankTarget == t.rankTarget && t.rankStreak == s.rankStreak + 1)))))
  }

  lemma {:induction false} AutoRank(rating: Rating, s: State, o: Observation, policy: Policy, now: int)
    ensures RankOutcome(rating, s, o, policy, now, AutoStep(rating, s, o, policy, now))
  {
    hide Candidates, Healthy, Replacement;
    var t := (if s.active != o.active then s.(rankTarget := "", rankStreak := 0) else s)
             .(active := o.active, activePool := CurrentPool(o));
    RankFieldsOfHealthy(rating, t, o, policy, now);
    var u := t.(status := ProxyDegraded, rankTarget := "", rankStreak := 0,
                failureStreak := if o.active == "" || o.active == DIRECT then policy.failureLimit
                    else t.failureStreak + 1);
    RankFieldsOfReplacement(rating, u, o, policy, now, false, o.active != "");
  }

  lemma {:induction false} EmergencyRank(rating: Rating, s: State, o: Observation, policy: Policy, now: int)
    ensures var out := EmergencyStep(rating, s, o, policy, now);
            && out.state.nextRankCheck == s.nextRankCheck && out.state.rankStreak == s.rankStreak
            && out.state.rankTarget == s.rankTarget && !out.decision.reason.HigherRankStable?
  {
    hide Replacement;
    var pool := CurrentPool(o);
    var t := EmergencyFailing(s, o, policy);
    RankFieldsOfReplacement(rating, t, o, policy, now, true, pool == Emergency && o.active != "");
  }

  lemma {:induction false} OutranksBeats(rating: Rating, m: Moment, s: State)
    requires s.cooldowns == Purge(m.before.cooldowns, m.At()) && Outranks(rating, s, m.observation)
    ensures Beats(rating, m,
            Candidates(rating, m.observation.nodes, Primary, s.cooldowns, m.observation.active)[0].name)
  {
    HeadIsBest(rating, m.observation.nodes, Primary, s.cooldowns, m.observation.active);
  }

  /** What a cycle does to the rank fields. */
  lemma {:induction false} RankStep(rating: Rating, policy: Policy, m: Moment)
    requires Ran(rating, policy, m)
    ensures if IsSwitch(m.decision) then Switched(rating, policy, m)
            else Untouched(m) || (Checked(policy, m) && m.after.rankStreak == 0) || Counted(rating, policy, m)
  {
    hide AutoStep, EmergencyStep, Candidates, TestedSince, Beats, Outranks;
    var s := Arrived(m.before, m.observation, m.wall);
    AutoRank(rating, s, m.observation, policy, m.At());
    EmergencyRank(rating, s, m.observation, policy, m.At());
    if Outranks(rating, s, m.observation) {
      OutranksBeats(rating, m, s);
    }
  }

  // ----- Spacing

  /** Since a switch at `t`: waiting for the first check, or past it. */
  ghost predicate AfterSwitch(policy: Policy, s: State, t: int) {
    || (s.rankStreak == 0 && s.nextRankCheck >= t + 60)
    || (s.nextRankCheck >= t + 60 + Seconds(policy.rankUpgradeInterval))
  }

  lemma {:induction false} NoSwitchSoon(rating: Rating, policy: Policy, run: seq<Moment>, i: nat, j: nat)
    requires IsRun(rating, policy, run) && i < j < |run| && IsSwitch(run[i].decision)
    requires forall k :: i < k < j ==> !IsSwitch(run[k].decision)
    ensures AfterSwitch(policy, run[j].before, run[i].At())
    decreases j
  {
    hide Ran, Now, Beats;
    assert HandedOver(run, j - 1);
    RankStep(rating, policy, run[j - 1]);
    if i < j - 1 {
      NoSwitchSoon(rating, policy, run, i, j - 1);
    }
  }

  /** Two rank switches are at least 60 seconds and one check interval apart, whatever the clock does. */
  lemma {:induction false} SwitchesAreSpaced(rating: Rating, policy: Policy, run: seq<Moment>, i: nat, j: nat)
    requires IsRun(rating, policy, run) && i < j < |run| && IsSwitch(run[i].decision) && IsSwitch(run[j].decision)
    requires forall k :: i < k < j ==> !IsSwitch(run[k].decision)
    ensures run[j].At() >= run[i].At() + 60 + Seconds(policy.rankUpgradeInterval)
  {
    hide Ran, Now, Beats;
    NoSwitchSoon(rating, policy, run, i, j);
    RankStep(rating, policy, run[j]);
  }

  // ----- Both checks

  /** Every switch was confirmed by two checks, an interval apart, both of which the target passed. */
  lemma {:induction false} SwitchWasConfirmedTwice(rating: Rating, policy: Policy, run: seq<Moment>, j: nat)
      returns (i: nat)
    requires IsRun(rating, policy, run) && j < |run| && run[0].before == INITIAL && IsSwitch(run[j].decision)
    ensures i < j && run[j].At() >= run[i].At() + Seconds(policy.rankUpgradeInterval)
    ensures Beats(rating, run[i], run[j].decision.target) && Beats(rating, run[j], run[j].decision.target)
  {
    hide Ran, Now, Beats;
    RankStep(rating, policy, run[j]);
    i := FirstCheck(rating, policy, run, j);
  }

  lemma {:induction false} FirstCheck(rating: Rating, policy: Policy, run: seq<Moment>, j: nat) returns (i: nat)
    requires IsRun(rating, policy, run) && j < |run| && run[0].before == INITIAL && run[j].before.rankStreak >= 1
    ensures i < j && Beats(rating, run[i], run[j].before.rankTarget)
    ensures run[j].before.nextRankCheck == run[i].At() + Seconds(policy.rankUpgradeInterval)
    decreases j
  {
    hide Ran, Now, Beats;
    assert HandedOver(run, j - 1);
    RankStep(rating, policy, run[j - 1]);
    if Counted(rating, policy, run[j - 1]) {
      i := j - 1;
    } else {
      i := FirstCheck(rating, policy, run, j - 1);
    }
  }
}
