/** When a rank switch is made: exactly at the second of two successive checks with the same best node. */
module ControllerProgress {
  import opened Rank
  import opened Controller
  import opened ControllerChoice
  import opened ControllerRuns
  import opened ControllerRank
  import opened ControllerLadders
  import opened ControllerReturns

  /** The cycle compares ranks: the connection is past its recovery and a check is due. */
  predicate Compares(policy: Policy, m: Moment) {
    && !m.before.status.InternetDown? && m.before.recoveryGraceUntil <= m.At()
    && policy.rankUpgradeInterval > 0 && m.before.nextRankCheck <= m.At()
  }

  /** `to` outdoes the active node in this cycle. */
  predicate Outdoes(rating: Rating, nodes: seq<Node>, m: Moment, to: string) {
    Outdone(rating, nodes, Purge(m.before.cooldowns, m.At()), m.observation.active, to)
  }

  /** `to` passed a check against `active`. */
  predicate Leads(s: State, active: string, to: string) {
    s.active == active && s.rankStreak >= 1 && s.rankTarget == to
  }

  /** A cycle that compares: it switches exactly to a node that leads already, and without a switch the best one
      leads. */
  lemma {:induction false} ComparingCycle(rating: Rating, policy: Policy, m: Moment, nodes: seq<Node>, to: string)
    requires Ran(rating, policy, m) && Calm(m, nodes) && Compares(policy, m) && m.before.rankStreak >= 0
    ensures IsSwitch(m.decision) && m.decision.target == to <==>
              Outdoes(rating, nodes, m, to) && Leads(m.before, m.observation.active, to)
    ensures IsSwitch(m.decision) ==> m.after.rankStreak == 0
    ensures !IsSwitch(m.decision) ==>
              && (Leads(m.after, m.observation.active, to) <==> Outdoes(rating, nodes, m, to))
              && m.after.nextRankCheck == m.At() + Interval(policy)
    ensures m.after.rankStreak >= 0 && Recovered(m.before, m.after)
  {
    hide Candidates, Seconds, Failback, Degraded, EmergencyStep, Steered, Qualifying, NodeByName;
  }

  /** The connection stays past its recovery. */
  predicate Recovered(a: State, b: State) {
    b.recoveryGraceUntil == a.recoveryGraceUntil && !b.status.InternetDown?
  }

  /** Any other calm cycle leaves the leading node alone. */
  lemma {:induction false} IdleCycle(rating: Rating, policy: Policy, m: Moment, nodes: seq<Node>, to: string)
    requires Ran(rating, policy, m) && Calm(m, nodes) && !Compares(policy, m) && m.before.rankStreak >= 0
    ensures !IsSwitch(m.decision)
    ensures Leads(m.after, m.observation.active, to) <==> Leads(m.before, m.observation.active, to)
    ensures m.after.nextRankCheck == m.before.nextRankCheck && m.after.rankStreak >= 0
    ensures !m.before.status.InternetDown? ==> Recovered(m.before, m.after)
  {
    hide Candidates, Seconds, Failback, Degraded, EmergencyStep, Steered, Qualifying, NodeByName, Outranks;
  }

  // ----- Two successive checks

  /** The runtime does not clear the counters after cycle `i`. */
  predicate Kept(run: seq<Moment>, i: nat)
    requires i + 1 < |run|
  {
    run[i + 1].before.rankStreak == run[i].after.rankStreak && run[i + 1].before.rankTarget == run[i].after.rankTarget
  }

  /** Cycle `i` holds the last check before cycle `j`, `to` passed it, and nothing was forgotten since. */
  ghost predicate PassedBefore(rating: Rating, policy: Policy, nodes: seq<Node>, run: seq<Moment>, i: nat, j: nat,
          to: string)
    requires j < |run|
  {
    && i < j && Compares(policy, run[i]) && !IsSwitch(run[i].decision) && Outdoes(rating, nodes, run[i], to)
    && (forall k :: i < k < j ==> !Compares(policy, run[k]))
    && (forall k :: i <= k < j ==> Kept(run, k))
  }

  /** The same node stays active until a switch. */
  lemma {:induction false} ActiveStays(rating: Rating, policy: Policy, run: seq<Moment>, nodes: seq<Node>, i: nat)
    requires IsRun(rating, policy, run) && FixedMeasurements(run, nodes) && i + 1 < |run| && !IsSwitch(run[i].decision)
    ensures run[i + 1].observation.active == run[i].observation.active
  {
    hide Ran, Now, Calm;
    assert Calm(run[i], nodes) && Ran(rating, policy, run[i]) && Follows(run, i);
    CalmCycle(rating, policy, run[i], nodes);
  }

  lemma {:induction false} LeadsIffPassed(rating: Rating, policy: Policy, run: seq<Moment>, nodes: seq<Node>, j: nat,
          to: string)
    requires IsRun(rating, policy, run) && FixedMeasurements(run, nodes) && j < |run| && run[0].before == INITIAL
    ensures Leads(run[j].before, run[j].observation.active, to) <==>
              exists i :: PassedBefore(rating, policy, nodes, run, i, j, to)
    ensures run[j].before.rankStreak >= 0
    decreases j
  {
    hide Ran, Now, Calm, Compares, Outdoes;
    if j > 0 {
      var h: nat := j - 1;
      var m := run[h];
      LeadsIffPassed(rating, policy, run, nodes, h, to);
      assert Calm(m, nodes) && Ran(rating, policy, m) && HandedOver(run, h);
      if Compares(policy, m) {
        ComparingCycle(rating, policy, m, nodes, to);
      } else {
        IdleCycle(rating, policy, m, nodes, to);
      }
      if !IsSwitch(m.decision) {
        ActiveStays(rating, policy, run, nodes, h);
      }
      PassedEarlier(rating, policy, run, nodes, h, j, to);
    }
  }

  /** The last check before cycle `j` is in the cycle before it, or before that one. */
  lemma {:induction false} PassedEarlier(rating: Rating, policy: Policy, run: seq<Moment>, nodes: seq<Node>, h: nat,
          j: nat, to: string)
    requires j == h + 1 < |run|
    ensures (exists i :: PassedBefore(rating, policy, nodes, run, i, j, to)) <==>
              && Kept(run, h)
              && if Compares(policy, run[h])
                 then !IsSwitch(run[h].decision) && Outdoes(rating, nodes, run[h], to)
                 else exists i :: PassedBefore(rating, policy, nodes, run, i, h, to)
  {
    hide Compares, Outdoes, IsSwitch, Kept;
    if Kept(run, h) {
      if Compares(policy, run[h]) {
        if !IsSwitch(run[h].decision) && Outdoes(rating, nodes, run[h], to) {
          assert PassedBefore(rating, policy, nodes, run, h, j, to);
        }
      } else if i: nat :| PassedBefore(rating, policy, nodes, run, i, h, to) {
        assert PassedBefore(rating, policy, nodes, run, i, j, to);
      }
    }
    if i: nat :| PassedBefore(rating, policy, nodes, run, i, j, to) {
      assert Kept(run, h);
      if i < h {
        assert PassedBefore(rating, policy, nodes, run, i, h, to);
      }
    }
  }

  /** A run from the initial state switches to a node in exactly the cycles that compare ranks, find it to outdo the
      active node, and follow a comparison that found the same. */
  lemma {:induction false} SwitchesExactly(rating: Rating, policy: Policy, run: seq<Moment>, nodes: seq<Node>, j: nat,
          to: string)
    requires IsRun(rating, policy, run) && FixedMeasurements(run, nodes) && j < |run| && run[0].before == INITIAL
    ensures IsSwitch(run[j].decision) && run[j].decision.target == to <==>
              && Compares(policy, run[j]) && Outdoes(rating, nodes, run[j], to)
              && exists i :: PassedBefore(rating, policy, nodes, run, i, j, to)
  {
    hide Ran, Now, Calm, Compares, Outdoes, PassedBefore;
    LeadsIffPassed(rating, policy, run, nodes, j, to);
    assert Calm(run[j], nodes) && Ran(rating, policy, run[j]);
    if Compares(policy, run[j]) {
      ComparingCycle(rating, policy, run[j], nodes, to);
    } else {
      IdleCycle(rating, policy, run[j], nodes, to);
    }
  }

  // ----- When the next check is

  /** After a check without a switch the next one is in the first cycle that is an interval later. */
  lemma {:induction false} DueAgain(rating: Rating, policy: Policy, run: seq<Moment>, nodes: seq<Node>, i: nat, j: nat)
    requires IsRun(rating, policy, run) && FixedMeasurements(run, nodes) && i < j < |run| && run[0].before == INITIAL
    requires Compares(policy, run[i]) && !IsSwitch(run[i].decision)
    requires forall k :: i < k < j ==> !Compares(policy, run[k])
    ensures Compares(policy, run[j]) <==> run[j].At() >= run[i].At() + Interval(policy)
    ensures run[j].before.nextRankCheck == run[i].At() + Interval(policy)
    ensures run[j].observation.active == run[i].observation.active
    ensures run[j].before.recoveryGraceUntil <= run[i].At() && !run[j].before.status.InternetDown?
    decreases j
  {
    hide Ran, Now, Calm, Interval, Leads, Outdoes;
    var h: nat := j - 1;
    assert Calm(run[h], nodes) && Ran(rating, policy, run[h]) && HandedOver(run, h);
    LeadsIffPassed(rating, policy, run, nodes, h, "");
    if i < h {
      DueAgain(rating, policy, run, nodes, i, h);
      IdleCycle(rating, policy, run[h], nodes, "");
    } else {
      ComparingCycle(rating, policy, run[h], nodes, "");
    }
    ActiveStays(rating, policy, run, nodes, h);
    IntervalNotNegative(policy);
  }

  lemma {:induction false} IntervalNotNegative(policy: Policy)
    requires policy.rankUpgradeInterval > 0
    ensures Interval(policy) >= 0
  {
  }

  lemma {:induction false} NextCheck(rating: Rating, policy: Policy, run: seq<Moment>, nodes: seq<Node>, i: nat, j: nat)
    returns (k: nat)
    requires IsRun(rating, policy, run) && FixedMeasurements(run, nodes) && i < j < |run| && run[0].before == INITIAL
    requires Compares(policy, run[i]) && !IsSwitch(run[i].decision) && run[j].At() >= run[i].At() + Interval(policy)
    ensures i < k <= j && Compares(policy, run[k]) && forall l :: i < l < k ==> !Compares(policy, run[l])
    ensures run[k].observation.active == run[i].observation.active
  {
    hide IsRun, FixedMeasurements, Now, Compares, Interval;
    k := i + 1;
    DueAgain(rating, policy, run, nodes, i, k);
    while !Compares(policy, run[k])
      invariant i < k <= j && forall l :: i < l < k ==> !Compares(policy, run[l])
      invariant Compares(policy, run[k]) <==> run[k].At() >= run[i].At() + Interval(policy)
      invariant run[k].observation.active == run[i].observation.active
      decreases j - k
    {
      k := k + 1;
      DueAgain(rating, policy, run, nodes, i, k);
    }
  }

  // ----- Progress

  /** A node that outdoes the active one from a check on is switched to by the next one, at the latest in the first
      cycle an interval later. */
  lemma {:induction false} SwitchIsMade(rating: Rating, policy: Policy, run: seq<Moment>, nodes: seq<Node>, i: nat,
          j: nat, to: string) returns (k: nat)
    requires IsRun(rating, policy, run) && FixedMeasurements(run, nodes) && i < j < |run| && run[0].before == INITIAL
    requires Compares(policy, run[i]) && run[j].At() >= run[i].At() + Interval(policy)
    requires forall l :: i <= l < j ==> Kept(run, l)
    requires var active := run[i].observation.active;
             forall l :: i <= l <= j ==> Outdone(rating, nodes, Purge(run[l].before.cooldowns, run[l].At()), active, to)
    ensures i <= k <= j && IsSwitch(run[k].decision) && run[k].decision.target == to
    ensures run[k].observation.active == run[i].observation.active
    ensures forall l :: i < l < k ==> !Compares(policy, run[l])
  {
    hide IsRun, FixedMeasurements, Now, Compares, Interval, Outdone, Kept, IsSwitch, INITIAL;
    if IsSwitch(run[i].decision) {
      k := i;
      SwitchesExactly(rating, policy, run, nodes, i, run[i].decision.target);
      OneOutdoes(rating, nodes, Purge(run[i].before.cooldowns, run[i].At()), run[i].observation.active, to,
          run[i].decision.target);
    } else {
      k := NextCheck(rating, policy, run, nodes, i, j);
      assert PassedBefore(rating, policy, nodes, run, i, k, to);
      SwitchesExactly(rating, policy, run, nodes, k, to);
    }
  }

  lemma {:induction false} OneOutdoes(rating: Rating, nodes: seq<Node>, cooldowns: map<string, int>, from: string,
          a: string, b: string)
    requires Outdone(rating, nodes, cooldowns, from, a) && Outdone(rating, nodes, cooldowns, from, b)
    ensures a == b
  {
  }

  /** Without cooldowns a node above the active one means that some node outdoes it, and the other way round. */
  lemma {:induction false} AboveIffOutdone(rating: Rating, nodes: seq<Node>, from: string)
    ensures (exists n :: Above(rating, nodes, from, n) && n.name != from) <==> exists to ::
              Outdone(rating, nodes, map[], from, to)
  {
    HeadIsBest(rating, nodes, Primary, map[], from);
    var c := Candidates(rating, nodes, Primary, map[], from);
    hide Candidates;
    if n :| Above(rating, nodes, from, n) && n.name != from {
      assert Eligible(Primary, map[], from, n);
      assert !Better(rating, n, c[0]);
      assert Outdone(rating, nodes, map[], from, c[0].name);
    }
    if to :| Outdone(rating, nodes, map[], from, to) {
      assert Above(rating, nodes, from, c[0]) && c[0].name != from;
    }
  }

  lemma {:induction false} StaysFresh(rating: Rating, policy: Policy, run: seq<Moment>, nodes: seq<Node>, i: nat,
          k: nat)
    requires IsRun(rating, policy, run) && FixedMeasurements(run, nodes) && i <= k < |run|
    requires run[i].before.cooldowns == map[]
    ensures run[k].before.cooldowns == map[]
    decreases k
  {
    hide Ran, Now, Calm, Outdone;
    if i < k {
      var h: nat := k - 1;
      StaysFresh(rating, policy, run, nodes, i, h);
      assert Calm(run[h], nodes) && Ran(rating, policy, run[h]) && HandedOver(run, h);
      FreshSwitch(rating, policy, run[h], nodes);
    }
  }

  /** Without cooldowns a run rests, from a check to the first cycle an interval later, exactly if no other node is
      above the active one: it ends within 75 points of the best, and leaves every node it can improve on. */
  lemma {:induction false} RestsIffNoneAbove(rating: Rating, policy: Policy, run: seq<Moment>, nodes: seq<Node>, i: nat,
          j: nat)
    requires IsRun(rating, policy, run) && FixedMeasurements(run, nodes) && i < j < |run| && run[0].before == INITIAL
    requires Compares(policy, run[i]) && run[j].At() >= run[i].At() + Interval(policy)
    requires forall l :: i <= l < j ==> Kept(run, l)
    ensures (forall k :: i <= k <= j ==> !IsSwitch(run[k].decision)) <==>
              forall n :: Above(rating, nodes, run[i].observation.active, n) ==> n.name == run[i].observation.active
  {
    hide IsRun, FixedMeasurements, Now, Compares, Interval, Outdone, Above, Kept, IsSwitch;
    var active := run[i].observation.active;
    AboveIffOutdone(rating, nodes, active);
    forall k | i <= k <= j
      ensures run[k].before.cooldowns == map[]
    {
      StaysFresh(rating, policy, run, nodes, 0, k);
    }
    assert forall now :: Purge(map[], now) == map[];
    if to :| Outdone(rating, nodes, map[], active, to) {
      var k := SwitchIsMade(rating, policy, run, nodes, i, j, to);
      assert i <= k <= j && IsSwitch(run[k].decision);
    } else {
      NeverLeft(rating, policy, run, nodes, i, j);
    }
  }

  /** A node that nothing outdoes is not left. */
  lemma {:induction false} NeverLeft(rating: Rating, policy: Policy, run: seq<Moment>, nodes: seq<Node>, i: nat, j: nat)
    requires IsRun(rating, policy, run) && FixedMeasurements(run, nodes) && i <= j < |run|
    requires run[i].before.cooldowns == map[]
    requires forall to :: !Outdone(rating, nodes, map[], run[i].observation.active, to)
    ensures run[j].observation.active == run[i].observation.active && !IsSwitch(run[j].decision)
    ensures forall k :: i <= k <= j ==> !IsSwitch(run[k].decision)
    decreases j
  {
    hide Ran, Now, Calm, Outdone;
    if i < j {
      NeverLeft(rating, policy, run, nodes, i, j - 1);
      ActiveStays(rating, policy, run, nodes, j - 1);
    }
    StaysFresh(rating, policy, run, nodes, i, j);
    assert Calm(run[j], nodes) && Ran(rating, policy, run[j]);
    FreshSwitch(rating, policy, run[j], nodes);
  }
}
