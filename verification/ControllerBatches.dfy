/** Failure batches and requalification over whole runs of the failover controller. */
module ControllerBatches {
  import opened Rank
  import opened Seqs
  import opened Controller
  import opened ControllerChoice
  import opened ControllerRuns

  /** Outside a requalification the batch is not full. */
  predicate BatchOpen(s: State, policy: Policy) {
    s.qualificationSince >= 0 && (s.qualificationSince == 0 ==> s.failedNodes < policy.poolFailureLimit)
  }

  // ----- The batch counter

  lemma {:induction false} ReplacementKeepsBatch(rating: Rating, s: State, o: Observation, policy: Policy, now: int,
          emergency: bool, counts: bool)
    requires policy.poolFailureLimit > 0 && now > 0 && s.qualificationSince == 0 && BatchOpen(s, policy)
    ensures BatchOpen(Replacement(rating, s, o, policy, now, emergency, counts).state, policy)
  {
    hide Candidates, CoolPool;
  }

  lemma {:induction false} HealthyKeepsBatch(rating: Rating, s: State, o: Observation, policy: Policy, now: int)
    requires policy.poolFailureLimit > 0 && BatchOpen(s, policy)
    ensures BatchOpen(Healthy(rating, s, o, policy, now).state, policy)
  {
    hide Candidates, Outranks;
  }

  lemma {:induction false} AutoKeepsBatch(rating: Rating, s: State, o: Observation, policy: Policy, now: int)
    requires policy.poolFailureLimit > 0 && now > 0 && s.qualificationSince == 0 && BatchOpen(s, policy)
    ensures BatchOpen(AutoStep(rating, s, o, policy, now).state, policy)
  {
    hide Replacement, Healthy;
    var t := (if s.active != o.active then s.(rankTarget := "", rankStreak := 0) else s)
             .(active := o.active, activePool := CurrentPool(o));
    HealthyKeepsBatch(rating, t, o, policy, now);
    var u := t.(status := ProxyDegraded, rankTarget := "", rankStreak := 0,
                failureStreak := if o.active == "" || o.active == DIRECT then policy.failureLimit
                    else t.failureStreak + 1);
    ReplacementKeepsBatch(rating, u, o, policy, now, false, o.active != "");
  }

  lemma {:induction false} EmergencyKeepsBatch(rating: Rating, s: State, o: Observation, policy: Policy, now: int)
    requires policy.poolFailureLimit > 0 && now > 0 && s.qualificationSince == 0 && BatchOpen(s, policy)
    ensures BatchOpen(EmergencyStep(rating, s, o, policy, now).state, policy)
  {
    hide Replacement;
    var pool := CurrentPool(o);
    var t := EmergencyFailing(s, o, policy);
    ReplacementKeepsBatch(rating, t, o, policy, now, true, pool == Emergency && o.active != "");
  }

  lemma {:induction false} StepKeepsBatch(rating: Rating, policy: Policy, m: Moment)
    requires Ran(rating, policy, m) && policy.poolFailureLimit > 0 && m.At() > 0 && BatchOpen(m.before, policy)
    ensures BatchOpen(m.after, policy)
  {
    hide AutoStep, EmergencyStep, TestedSince;
    var s := Arrived(m.before, m.observation, m.wall);
    if s.qualificationSince == 0 {
      AutoKeepsBatch(rating, s, m.observation, policy, m.At());
      EmergencyKeepsBatch(rating, s, m.observation, policy, m.At());
    }
  }

  /** In every state reached under a positive clock, no requalification pending means the batch is below its limit. */
  lemma {:induction false} BatchStaysOpen(rating: Rating, policy: Policy, run: seq<Moment>, i: nat)
    requires IsRun(rating, policy, run) && i < |run| && run[0].before == INITIAL
    requires policy.poolFailureLimit > 0 && forall k :: 0 <= k <= i ==> run[k].At() > 0
    ensures BatchOpen(run[i].before, policy) && BatchOpen(run[i].after, policy)
  {
    hide Ran, Now;
    if i > 0 {
      BatchStaysOpen(rating, policy, run, i - 1);
      assert HandedOver(run, i - 1);
    }
    StepKeepsBatch(rating, policy, run[i]);
  }

  // ----- While servers are requalified

  /** While a requalification is pending, an enabled controller with WAN selects nothing. */
  lemma {:induction false} NothingSelectedWhileQualifying(rating: Rating, policy: Policy, m: Moment)
    requires Ran(rating, policy, m) && m.before.qualificationSince > 0 && m.observation.wan
    requires m.observation.control.enabled
    ensures !m.decision.action.Select?
  {
    hide TestedSince;
  }

  /** A request dates the requalification and blocks the next request for the retry period. */
  ghost predicate Requested(policy: Policy, m: Moment) {
    m.after.qualificationSince == m.At() && m.after.nextPoolRefresh == m.At() + Seconds(policy.qualificationRetry)
  }

  /** The requests of the failure batch. */
  predicate IsBatch(d: Decision) {
    d.reason.FailureBatch? || d.reason.EmergencyFailureBatch?
  }

  ghost predicate MayRequest(s: State, policy: Policy, now: int, out: Outcome) {
    if out.decision.action.Requalify? then
      && out.state.qualificationSince == now && out.state.nextPoolRefresh == now + Seconds(policy.qualificationRetry)
      && (if IsBatch(out.decision) then policy.poolFailureLimit > 0
          else policy.suspendOnExhaustion && now >= s.nextPoolRefresh)
    else
      && out.state.qualificationSince == s.qualificationSince
      && (out.state.nextPoolRefresh == s.nextPoolRefresh
          || out.state.nextPoolRefresh == now + Seconds(policy.poolRefreshCooldown))
  }

  lemma {:induction false} ReplacementRequests(rating: Rating, s: State, o: Observation, policy: Policy, now: int,
          emergency: bool, counts: bool)
    ensures MayRequest(s, policy, now, Replacement(rating, s, o, policy, now, emergency, counts))
  {
    hide Candidates, CoolPool;
  }

  lemma {:induction false} HealthyRequests(rating: Rating, s: State, o: Observation, policy: Policy, now: int)
    ensures MayRequest(s, policy, now, Healthy(rating, s, o, policy, now))
  {
    hide Candidates, Outranks;
  }

  lemma {:induction false} AutoRequests(rating: Rating, s: State, o: Observation, policy: Policy, now: int)
    ensures MayRequest(s, policy, now, AutoStep(rating, s, o, policy, now))
  {
    hide Replacement, Healthy;
    var t := (if s.active != o.active then s.(rankTarget := "", rankStreak := 0) else s)
             .(active := o.active, activePool := CurrentPool(o));
    HealthyRequests(rating, t, o, policy, now);
    var u := t.(status := ProxyDegraded, rankTarget := "", rankStreak := 0,
                failureStreak := if o.active == "" || o.active == DIRECT then policy.failureLimit
                    else t.failureStreak + 1);
    ReplacementRequests(rating, u, o, policy, now, false, o.active != "");
  }

  lemma {:induction false} EmergencyRequests(rating: Rating, s: State, o: Observation, policy: Policy, now: int)
    ensures MayRequest(s, policy, now, EmergencyStep(rating, s, o, policy, now))
  {
    hide Replacement;
    var pool := CurrentPool(o);
    var t := EmergencyFailing(s, o, policy);
    ReplacementRequests(rating, t, o, policy, now, true, pool == Emergency && o.active != "");
  }

  /** What a cycle does to a pending requalification. */
  lemma {:induction false} StepRequests(rating: Rating, policy: Policy, m: Moment)
    requires Ran(rating, policy, m)
    ensures m.decision.action.Requalify? ==> Requested(policy, m)
    ensures m.decision.action.Requalify? && m.before.qualificationSince > 0 ==> m.At() >= m.before.nextPoolRefresh
    ensures !m.decision.action.Requalify? && m.after.qualificationSince > 0 ==>
              m.after.qualificationSince == m.before.qualificationSince
                  && m.after.nextPoolRefresh == m.before.nextPoolRefresh
    ensures m.decision.action.Requalify? ==>
              if IsBatch(m.decision) then policy.poolFailureLimit > 0 else m.At() >= m.before.nextPoolRefresh
    ensures !m.decision.action.Requalify? ==>
              || m.after.nextPoolRefresh == m.before.nextPoolRefresh
              || m.after.nextPoolRefresh == m.At() + Seconds(policy.poolRefreshCooldown)
  {
    hide AutoStep, EmergencyStep, TestedSince;
    var s := Arrived(m.before, m.observation, m.wall);
    AutoRequests(rating, s, m.observation, policy, m.At());
    EmergencyRequests(rating, s, m.observation, policy, m.At());
  }

  ghost predicate NoRequestBetween(run: seq<Moment>, i: nat, j: nat)
    requires j <= |run|
  {
    forall k :: i < k < j ==> !run[k].decision.action.Requalify?
  }

  /** The latest request before a pending requalification is the one it is dated by. */
  lemma {:induction false} LatestRequest(rating: Rating, policy: Policy, run: seq<Moment>, j: nat) returns (i: nat)
    requires IsRun(rating, policy, run) && j < |run| && run[0].before == INITIAL
    requires run[j].before.qualificationSince > 0
    ensures i < j && run[i].decision.action.Requalify? && NoRequestBetween(run, i, j)
    ensures run[j].before.qualificationSince == run[i].At()
    ensures run[j].before.nextPoolRefresh == run[i].At() + Seconds(policy.qualificationRetry)
    decreases j
  {
    hide Ran, Now;
    assert HandedOver(run, j - 1);
    StepRequests(rating, policy, run[j - 1]);
    if run[j - 1].decision.action.Requalify? {
      i := j - 1;
    } else {
      i := LatestRequest(rating, policy, run, j - 1);
    }
  }

  /** While a requalification stays pending, requests are at least the retry period apart, whatever the
      clock does in between. */
  lemma {:induction false} PendingRequestsAreSpaced(rating: Rating, policy: Policy, run: seq<Moment>, i: nat, j: nat)
    requires IsRun(rating, policy, run) && i < j < |run| && run[0].before == INITIAL
    requires run[i].decision.action.Requalify? && run[j].decision.action.Requalify? && NoRequestBetween(run, i, j)
    requires run[j].before.qualificationSince > 0
    ensures run[j].At() >= run[i].At() + Seconds(policy.qualificationRetry)
  {
    hide Ran, Now;
    var k := LatestRequest(rating, policy, run, j);
    assert k == i;
    StepRequests(rating, policy, run[j]);
  }

  /** What one cycle of a run leaves to the next. */
  lemma {:induction false} RefreshStep(rating: Rating, policy: Policy, run: seq<Moment>, k: nat)
    requires IsRun(rating, policy, run) && k + 1 < |run|
    ensures var m, next := run[k], run[k + 1].before;
            if m.decision.action.Requalify? then next.nextPoolRefresh == m.At() + Seconds(policy.qualificationRetry)
            else
              || next.nextPoolRefresh == m.before.nextPoolRefresh
              || next.nextPoolRefresh == m.At() + Seconds(policy.poolRefreshCooldown)
  {
    hide Ran, Now, Seconds, IsBatch;
    assert HandedOver(run, k);
    StepRequests(rating, policy, run[k]);
  }

  /** After a request a pool refresh may only put off the next one further. */
  lemma {:induction false} RefreshStaysAway(rating: Rating, policy: Policy, run: seq<Moment>, i: nat, j: nat)
    requires IsRun(rating, policy, run) && ClockRuns(run) && i < j < |run|
    requires run[i].decision.action.Requalify? && NoRequestBetween(run, i, j)
    requires Seconds(policy.poolRefreshCooldown) >= Seconds(policy.qualificationRetry)
    ensures run[j].before.nextPoolRefresh >= run[i].At() + Seconds(policy.qualificationRetry)
    decreases j
  {
    hide IsRun, Now, Seconds;
    RefreshStep(rating, policy, run, j - 1);
    assert run[i].At() <= run[j - 1].At();
    if i < j - 1 {
      RefreshStaysAway(rating, policy, run, i, j - 1);
    }
  }

  /** Two requests are at least the retry period apart unless the second one comes from the failure batch,
      resumed or not in between. */
  lemma {:induction false} RequestsAreSpaced(rating: Rating, policy: Policy, run: seq<Moment>, i: nat, j: nat)
    requires IsRun(rating, policy, run) && ClockRuns(run) && i < j < |run|
    requires run[i].decision.action.Requalify? && run[j].decision.action.Requalify? && NoRequestBetween(run, i, j)
    requires Seconds(policy.poolRefreshCooldown) >= Seconds(policy.qualificationRetry)
    requires !IsBatch(run[j].decision)
    ensures run[j].At() >= run[i].At() + Seconds(policy.qualificationRetry)
  {
    hide Ran, Now, Seconds, IsBatch;
    RefreshStaysAway(rating, policy, run, i, j);
    StepRequests(rating, policy, run[j]);
  }

  lemma {:induction false} ActiveStepsNeverResume(rating: Rating, s: State, o: Observation, policy: Policy, now: int)
    ensures !AutoStep(rating, s, o, policy, now).decision.action.Resume?
    ensures !EmergencyStep(rating, s, o, policy, now).decision.action.Resume?
  {
    hide Candidates, CoolPool, Outranks;
  }

  /** A resume names the best node tested since the latest request, of the emergency pool in emergency mode. */
  lemma {:induction false} ResumeNamesRetestedNode(rating: Rating, policy: Policy, run: seq<Moment>, j: nat)
    returns (i: nat, n: Node)
    requires IsRun(rating, policy, run) && j < |run| && run[0].before == INITIAL
    requires run[j].decision.action.Resume?
    ensures i < j && run[i].decision.action.Requalify? && NoRequestBetween(run, i, j)
    ensures n in run[j].observation.nodes && n.alive && n.name == run[j].decision.target
    ensures n.pool == run[j].decision.pool
    ensures n.lastTestedAt >= run[i].At()
    ensures EffectiveMode(run[j].observation.control, run[j].At()).EmergencyOnly? ==> n.pool.Emergency?
    ensures forall other <- run[j].observation.nodes ::
              other.alive && other.name != "" && other.lastTestedAt >= run[i].At()
              && (EffectiveMode(run[j].observation.control, run[j].At()).EmergencyOnly? ==> other.pool.Emergency?)
              ==> !Better(rating, other, n)
  {
    n := ResumeChoice(rating, policy, run[j]);
    i := LatestRequest(rating, policy, run, j);
  }

  lemma {:induction false} ResumeChoice(rating: Rating, policy: Policy, m: Moment) returns (n: Node)
    requires Ran(rating, policy, m) && m.decision.action.Resume?
    ensures m.before.qualificationSince > 0
    ensures n in m.observation.nodes && n.alive && n.name == m.decision.target && n.pool == m.decision.pool
    ensures n.lastTestedAt >= m.before.qualificationSince
    ensures EffectiveMode(m.observation.control, m.At()).EmergencyOnly? ==> n.pool.Emergency?
    ensures forall other <- m.observation.nodes ::
              other.alive && other.name != "" && other.lastTestedAt >= m.before.qualificationSince
              && (EffectiveMode(m.observation.control, m.At()).EmergencyOnly? ==> other.pool.Emergency?)
              ==> !Better(rating, other, n)
  {
    hide AutoStep, EmergencyStep, Candidates;
    var s, o := Arrived(m.before, m.observation, m.wall), m.observation;
    ActiveStepsNeverResume(rating, s, o, policy, m.At());
    var pool := QualificationPool(s.mode);
    var kept := TestedSince(rating, o.nodes, s.mode, s.qualificationSince);
    FirstKeptIsBest(rating, Tested(s.qualificationSince), o.nodes, pool, map[], "");
    n := kept[0];
  }

  // ----- Batches that come early

  ghost predicate Spaced(policy: Policy, run: seq<Moment>) {
    forall i, j :: 0 <= i < j < |run| && Consecutive(run, i, j) ==>
          run[j].At() >= run[i].At() + Seconds(policy.qualificationRetry)
  }

  /** Requests in cycles `i` and `j` with none in between. */
  ghost predicate Consecutive(run: seq<Moment>, i: nat, j: nat)
    requires i < |run| && j < |run|
  {
    run[i].decision.action.Requalify? && run[j].decision.action.Requalify? && NoRequestBetween(run, i, j)
  }

  ghost predicate EveryRunIsSpaced(rating: Rating, policy: Policy) {
    forall run: seq<Moment> :: IsRun(rating, policy, run) && ClockRuns(run) && run != [] && run[0].before == INITIAL ==>
          Spaced(policy, run)
  }

  /** Without a failure batch a request needs exhaustion, and a refresh does not bring it closer than the retry
      period. */
  predicate KeepsApart(policy: Policy) {
    || Seconds(policy.qualificationRetry) <= 0
    || (policy.poolFailureLimit <= 0
        && (!policy.suspendOnExhaustion || Seconds(policy.poolRefreshCooldown) >= Seconds(policy.qualificationRetry)))
  }

  /** A policy spaces the requests of every run exactly if it has no failure batch, and no refresh period below
      the retry period; one without a retry period spaces them for nothing. */
  lemma {:induction false} SpacedIffKeptApart(rating: Rating, policy: Policy)
    ensures EveryRunIsSpaced(rating, policy) <==> KeepsApart(policy)
  {
    hide Seconds, Spaced;
    if KeepsApart(policy) {
      forall run: seq<Moment> | IsRun(rating, policy, run) && ClockRuns(run) && run != [] && run[0].before == INITIAL
        ensures Spaced(policy, run)
      {
        KeptApart(rating, policy, run);
      }
    } else if policy.poolFailureLimit > 0 {
      var run := RequestsCanBeClose(rating, policy, 0);
    } else {
      var run := RefreshBringsRequestCloser(rating, policy);
    }
  }

  lemma {:induction false} KeptApart(rating: Rating, policy: Policy, run: seq<Moment>)
    requires IsRun(rating, policy, run) && ClockRuns(run) && run != [] && run[0].before == INITIAL && KeepsApart(policy)
    ensures Spaced(policy, run)
  {
    hide Seconds, Ran, Now, NoRequestBetween, IsBatch;
    forall i, j | 0 <= i < j < |run| && Consecutive(run, i, j)
      ensures run[j].At() >= run[i].At() + Seconds(policy.qualificationRetry)
    {
      StepRequests(rating, policy, run[j]);
      if Seconds(policy.qualificationRetry) <= 0 {
      } else if policy.suspendOnExhaustion {
        RequestsAreSpaced(rating, policy, run, i, j);
      } else {
        NeverRequested(rating, policy, run, j);
      }
    }
  }

  lemma {:induction false} StepNeverRequests(rating: Rating, policy: Policy, m: Moment)
    requires Ran(rating, policy, m) && policy.poolFailureLimit <= 0 && !policy.suspendOnExhaustion
    requires m.before.qualificationSince <= 0
    ensures !m.decision.action.Requalify? && m.after.qualificationSince <= 0
  {
    hide TestedSince, AutoStep, EmergencyStep;
    var s, o, now := Arrived(m.before, m.observation, m.wall), m.observation, m.At();
    AutoRequests(rating, s, o, policy, now);
    EmergencyRequests(rating, s, o, policy, now);
  }

  /** Without batches and suspension nothing is ever requested. */
  lemma {:induction false} NeverRequested(rating: Rating, policy: Policy, run: seq<Moment>, j: nat)
    requires IsRun(rating, policy, run) && j < |run| && run[0].before == INITIAL
    requires policy.poolFailureLimit <= 0 && !policy.suspendOnExhaustion
    ensures !run[j].decision.action.Requalify? && run[j].after.qualificationSince <= 0
  {
    hide Ran, Now;
    if j > 0 {
      NeverRequested(rating, policy, run, j - 1);
      assert HandedOver(run, j - 1);
    }
    StepNeverRequests(rating, policy, run[j]);
  }

  /** The run the transport shows: a selection is carried out, and without one the active node stays. */
  predicate Follows(a: Moment, b: Moment) {
    b.observation.active == if a.decision.action.Select? then a.decision.target else a.observation.active
  }

  ghost predicate Followed(run: seq<Moment>, i: nat)
    requires i + 1 < |run|
  {
    Follows(run[i], run[i + 1])
  }

  ghost predicate Followable(run: seq<Moment>) {
    forall i: nat :: i + 1 < |run| ==> Followed(run, i)
  }

  ghost predicate Paced(run: seq<Moment>, start: int, step: nat) {
    forall k :: 0 <= k < |run| ==> run[k].At() == start + step * k
  }

  /** Primary nodes under different names, all of them alive. */
  function Roster(size: nat, tested: int): (nodes: seq<Node>)
    ensures |nodes| == size
  {
    seq(size, i requires 0 <= i < size => Node(Marks(i + 1), Primary, true, Metrics(0, 0.0, 0.0, 0, 0), tested))
  }

  /** One of these nodes is active and does not work. */
  ghost predicate Down(o: Observation, size: nat) {
    && o.wan && !o.activeOk && o.control == Control(true, Auto, "", 0) && o.activePool.Primary?
    && OnRoster(o.active, size) && exists tested :: o.nodes == Roster(size, tested)
  }

  ghost predicate OnRoster(name: string, size: nat) {
    exists i: nat :: 1 <= i <= size && name == Marks(i)
  }

  ghost predicate AllDown(run: seq<Moment>, size: nat) {
    forall k :: 0 <= k < |run| ==> Down(run[k].observation, size)
  }

  /** Requests of a policy with a failure batch can be close, at any pace `step` of the cycles: as many nodes as the
      batch takes fail in turn, are tested again, and fail again. */
  lemma {:induction false} RequestsCanBeClose(rating: Rating, policy: Policy, step: nat) returns (run: seq<Moment>)
    requires policy.poolFailureLimit > 0 && (policy.poolFailureLimit + 1) * step < Seconds(policy.qualificationRetry)
    ensures IsRun(rating, policy, run) && ClockRuns(run) && run != [] && run[0].before == INITIAL
    ensures Paced(run, 1000, step) && Followable(run) && AllDown(run, policy.poolFailureLimit)
    ensures var i := Pending(policy, 0) + policy.poolFailureLimit - 1;
            var j := i + 1 + policy.poolFailureLimit;
            && |run| == j + 1 && run[i].decision.action.Requalify? && run[i + 1].decision.action.Resume?
            && run[j].decision.action.Requalify? && IsBatch(run[j].decision) && NoRequestBetween(run, i, j)
            && run[j].At() == run[i].At() + step * (policy.poolFailureLimit + 1)
            && run[j].At() < run[i].At() + Seconds(policy.qualificationRetry)
    ensures !Spaced(policy, run)
  {
    hide Ran, Now, Seconds, Paced, IsRun, ClockRuns, NoRequestBetween, Followable, AllDown, Down, OnRoster, Roster,
        Pending;
    var size: nat := policy.poolFailureLimit;
    assert OnRoster(Marks(1), size) by {
      FirstOnRoster(size);
    }
    var first := FillBatch(rating, policy, INITIAL, Marks(1), 1000, step);
    var last := first[|first| - 1];
    var at := 1000 + step * |first|;
    LaterStep(1000, step, |first| - 1);
    LastIsDown(first, size);
    DownIsDown(last.observation.active, size, at);
    var resume := Resuming(rating, policy, last.after, DownAt(last.observation.active, size, at));
    var second := FillBatch(rating, policy, resume.after, resume.observation.active, at + step, step);
    LaterStep(1000, step, |first|);
    Single(rating, policy, resume, size, step);
    Join(rating, policy, first, [resume], size, 1000, step);
    Join(rating, policy, first + [resume], second, size, 1000, step);
    run := first + [resume] + second;
    PacedClockRuns(run, 1000, step);
    EarlyBatch(policy, first, resume, second, step);
  }

  lemma {:induction false} FirstOnRoster(size: nat)
    requires size > 0
    ensures OnRoster(Marks(1), size)
  {
  }

  lemma {:induction false} LaterStep(start: int, step: nat, n: nat)
    ensures start + step * (n + 1) == start + step * n + step
  {
  }

  lemma {:induction false} Single(rating: Rating, policy: Policy, m: Moment, size: nat, step: nat)
    requires Ran(rating, policy, m) && Down(m.observation, size)
    ensures IsRun(rating, policy, [m]) && Paced([m], m.At(), step) && Followable([m]) && AllDown([m], size)
  {
    hide Ran, Now, Down;
  }

  lemma {:induction false} EarlyBatch(policy: Policy, first: seq<Moment>, resume: Moment, second: seq<Moment>,
          step: nat)
    requires |second| == policy.poolFailureLimit > 0 && first != []
    requires (policy.poolFailureLimit + 1) * step < Seconds(policy.qualificationRetry)
    requires first[|first| - 1].decision.action.Requalify? && second[|second| - 1].decision.action.Requalify?
    requires resume.decision.action.Resume? && forall k :: 0 <= k < |second| - 1 ==>
               !second[k].decision.action.Requalify?
    requires Paced(first + [resume] + second, 1000, step)
    ensures var run, i, j := first + [resume] + second, |first| - 1, |first| + |second|;
            && Consecutive(run, i, j) && !Spaced(policy, run)
            && run[j].At() == run[i].At() + step * (|second| + 1) < run[i].At() + Seconds(policy.qualificationRetry)
  {
    hide Now, Seconds;
    var run, n := first + [resume] + second, |first|;
    var i, j := n - 1, n + |second|;
    forall k | i < k < j
      ensures !run[k].decision.action.Requalify?
    {
      if k > n {
        assert run[k] == second[k - (n + 1)];
      }
    }
    assert run[j] == second[|second| - 1] && run[i] == first[i];
    Distributes(step, i, |second| + 1);
    assert Consecutive(run, i, j);
  }

  lemma {:induction false} Distributes(step: nat, a: nat, b: nat)
    ensures step * (a + b) == step * a + step * b
  {
  }

  /** One run after the other, at the same pace. */
  lemma {:induction false} Join(rating: Rating, policy: Policy, a: seq<Moment>, b: seq<Moment>, size: nat, start: int,
          step: nat)
    requires IsRun(rating, policy, a) && IsRun(rating, policy, b) && a != [] && b != []
    requires a[|a| - 1].after == b[0].before && Follows(a[|a| - 1], b[0])
    requires Followable(a) && Followable(b) && AllDown(a, size) && AllDown(b, size)
    requires Paced(a, start, step) && Paced(b, start + step * |a|, step)
    ensures IsRun(rating, policy, a + b) && Paced(a + b, start, step) && Followable(a + b) && AllDown(a + b, size)
  {
    hide Ran, Now, Down;
    forall k | 0 <= k < |a + b|
      ensures Ran(rating, policy, (a + b)[k]) && (a + b)[k].At() == start + step * k
      ensures Down((a + b)[k].observation, size)
    {
      if k >= |a| {
        assert (a + b)[k] == b[k - |a|];
        Distributes(step, |a|, k - |a|);
      }
    }
    forall k: nat | k + 1 < |a + b|
      ensures HandedOver(a + b, k) && Followed(a + b, k)
    {
      if k >= |a| {
        assert HandedOver(b, k - |a|) && Followed(b, k - |a|);
      } else if k + 1 < |a| {
        assert HandedOver(a, k) && Followed(a, k);
      }
    }
  }

  lemma {:induction false} PacedClockRuns(run: seq<Moment>, start: int, step: nat)
    requires Paced(run, start, step)
    ensures ClockRuns(run)
  {
    forall a, b | 0 <= a <= b < |run|
      ensures run[a].At() <= run[b].At()
    {
      Distributes(step, a, b - a);
    }
  }

  /** The managed policy as it is, at a cycle every twenty seconds: three nodes, and two requests 80 seconds apart. */
  lemma {:induction false} ManagedRequestsCanBeClose(rating: Rating) returns (run: seq<Moment>)
    ensures IsRun(rating, MANAGED_POLICY, run) && ClockRuns(run) && |run| == 8 && run[0].before == INITIAL
    ensures Followable(run) && AllDown(run, 3)
    ensures run[3].decision.action.Requalify? && run[4].decision.action.Resume? && run[7].decision.action.Requalify?
    ensures run[7].At() == run[3].At() + 80 && Seconds(MANAGED_POLICY.qualificationRetry) == 300
  {
    run := RequestsCanBeClose(rating, MANAGED_POLICY, 20);
  }

  // ----- Filling a batch

  lemma {:induction false} SubsetSize(a: set<string>, b: set<string>)
    requires a <= b
    ensures |a| <= |b|
  {
    if a != {} {
      var x :| x in a;
      SubsetSize(a - {x}, b - {x});
    }
  }

  /** With fewer names taken than there are, one is free. */
  lemma {:induction false} FreeName(taken: set<string>, size: nat) returns (i: nat)
    requires |taken| < size
    ensures 1 <= i <= size && Marks(i) !in taken
  {
    if Marks(size) !in taken {
      i := size;
    } else {
      i := FreeName(taken - {Marks(size)}, size - 1);
    }
  }

  /** Nothing holds the controller back, and no more nodes cool down than failed. */
  predicate Poised(policy: Policy, s: State, now: int) {
    && s.qualificationSince == 0 && 0 <= s.failedNodes < policy.poolFailureLimit && |s.cooldowns.Keys| <= s.failedNodes
    && Unhindered(s, now)
  }

  predicate Unhindered(s: State, now: int) {
    !s.status.InternetDown? && s.recoveryGraceUntil <= now && s.nextSwitchAttempt <= now
  }

  /** How many failures of the active node the streak is still short of the limit, the next one left out. */
  function Pending(policy: Policy, streak: int): (n: nat) {
    if streak + 1 < policy.failureLimit then policy.failureLimit - streak - 1 else 0
  }

  ghost function DownAt(active: string, size: nat, now: int): Observation {
    Observation(now, true, false, active, Primary, Roster(size, now), Control(true, Auto, "", 0))
  }

  lemma {:induction false} NamesAreUsable(name: string, size: nat)
    requires OnRoster(name, size)
    ensures name != "" && name != DIRECT
  {
    var i: nat :| 1 <= i <= size && name == Marks(i);
    assert Marks(i)[0] == '|';
  }

  /** A roster has a candidate as long as fewer names cool down, and the best one has a name of the roster. */
  lemma {:induction false} RosterHasCandidate(rating: Rating, size: nat, tested: int, cooldowns: map<string, int>,
          exclude: string)
    requires |cooldowns.Keys| < size && exclude in cooldowns
    ensures var c := Candidates(rating, Roster(size, tested), NoPool, cooldowns, exclude);
            c != [] && OnRoster(c[0].name, size)
  {
    hide Candidates;
    var nodes := Roster(size, tested);
    var c := Candidates(rating, nodes, NoPool, cooldowns, exclude);
    CandidatesMembers(rating, nodes, NoPool, cooldowns, exclude);
    var i := FreeName(cooldowns.Keys, size);
    assert nodes[i - 1] in nodes && nodes[i - 1] in c;
    assert c[0] in c && c[0] in nodes;
  }

  /** The active node fails once more, below the limit. */
  lemma {:induction false} Enduring(rating: Rating, policy: Policy, before: State, active: string, now: int)
      returns (m: Moment)
    requires Poised(policy, before, now) && now > 0 && OnRoster(active, policy.poolFailureLimit)
    requires Pending(policy, before.failureStreak) > 0
    ensures Ran(rating, policy, m) && m.before == before
    ensures m.observation == DownAt(active, policy.poolFailureLimit, now)
    ensures m.At() == now && m.decision.action.Keep? && Poised(policy, m.after, now)
    ensures m.after.failureStreak == before.failureStreak + 1 && m.after.failedNodes == before.failedNodes
  {
    hide Roster, Replacement;
    NamesAreUsable(active, policy.poolFailureLimit);
    SubsetSize(Purge(before.cooldowns, now).Keys, before.cooldowns.Keys);
    var o := DownAt(active, policy.poolFailureLimit, now);
    var out := StepState(rating, before, o, policy, now);
    m := Moment(before, o, now, out.state, out.decision);
  }

  /** Replacing it when the limit is reached. */
  lemma {:induction false} Struck(rating: Rating, policy: Policy, s: State, active: string, now: int)
    requires Poised(policy, s, now) && OnRoster(active, policy.poolFailureLimit)
    ensures var out := Replacement(rating, s, DownAt(active, policy.poolFailureLimit, now), policy, now, false, true);
            && out.state.failedNodes == s.failedNodes + 1 && out.state.failureStreak == s.failureStreak
            && Unhindered(out.state, now)
            && if s.failedNodes + 1 < policy.poolFailureLimit then
                 && out.decision.action.Select? && OnRoster(out.decision.target, policy.poolFailureLimit)
                 && Poised(policy, out.state, now)
               else out.decision.action.Requalify? && IsBatch(out.decision) && out.state.qualificationSince == now
  {
    hide Candidates, CoolPool, Seconds, Roster;
    var cooldowns := s.cooldowns[active := now + Seconds(policy.cooldown)];
    assert cooldowns.Keys == s.cooldowns.Keys + {active};
    if s.failedNodes + 1 < policy.poolFailureLimit {
      RosterHasCandidate(rating, policy.poolFailureLimit, now, cooldowns, active);
    }
  }

  /** The active node fails for good: it cools down and another one is selected, or the batch is full. */
  lemma {:induction false} Failing(rating: Rating, policy: Policy, before: State, active: string, now: int)
      returns (m: Moment)
    requires Poised(policy, before, now) && now > 0 && OnRoster(active, policy.poolFailureLimit)
    requires Pending(policy, before.failureStreak) == 0
    ensures Ran(rating, policy, m) && m.before == before
    ensures m.observation == DownAt(active, policy.poolFailureLimit, now)
    ensures m.At() == now && m.after.failedNodes == before.failedNodes + 1
    ensures m.after.failureStreak == before.failureStreak + 1 && Unhindered(m.after, now)
    ensures if before.failedNodes + 1 < policy.poolFailureLimit
            then m.decision.action.Select? && OnRoster(m.decision.target, policy.poolFailureLimit)
                && Poised(policy, m.after, now)
            else m.decision.action.Requalify? && IsBatch(m.decision) && m.after.qualificationSince == now
  {
    hide Replacement, Roster, IsBatch;
    NamesAreUsable(active, policy.poolFailureLimit);
    SubsetSize(Purge(before.cooldowns, now).Keys, before.cooldowns.Keys);
    var o := DownAt(active, policy.poolFailureLimit, now);
    var s := before
             .(lastCycle := now, cooldowns := Purge(before.cooldowns, now), mode := Auto, wanAvailable := true,
               active := active, activePool := Primary, status := ProxyDegraded, rankTarget := "", rankStreak := 0,
               failureStreak := before.failureStreak + 1);
    Struck(rating, policy, s, active, now);
    var out := StepState(rating, before, o, policy, now);
    m := Moment(before, o, now, out.state, out.decision);
  }

  lemma {:induction false} FillBatch(rating: Rating, policy: Policy, before: State, active: string, now: int, step: nat)
    returns (run: seq<Moment>)
    requires Poised(policy, before, now) && now > 0 && OnRoster(active, policy.poolFailureLimit)
    ensures IsRun(rating, policy, run) && run != [] && run[0].before == before && run[0].observation.active == active
    ensures |run| == Pending(policy, before.failureStreak) + policy.poolFailureLimit - before.failedNodes
    ensures Paced(run, now, step) && Followable(run) && AllDown(run, policy.poolFailureLimit)
    ensures forall k :: 0 <= k < |run| - 1 ==> !run[k].decision.action.Requalify?
    ensures var last, at := run[|run| - 1], now + step * (|run| - 1);
            && last.decision.action.Requalify? && IsBatch(last.decision)
            && 0 < last.after.qualificationSince <= at && Unhindered(last.after, at)
            && Pending(policy, last.after.failureStreak) == 0
    decreases Pending(policy, before.failureStreak) + policy.poolFailureLimit - before.failedNodes
  {
    hide Ran, Now, Roster, Down, OnRoster;
    var size: nat := policy.poolFailureLimit;
    var m: Moment;
    if Pending(policy, before.failureStreak) > 0 {
      m := Enduring(rating, policy, before, active, now);
    } else {
      m := Failing(rating, policy, before, active, now);
    }
    DownIsDown(active, size, now);
    Single(rating, policy, m, size, step);
    if m.decision.action.Requalify? {
      run := [m];
    } else {
      var next := if m.decision.action.Select? then m.decision.target else active;
      var rest := FillBatch(rating, policy, m.after, next, now + step, step);
      Join(rating, policy, [m], rest, size, now, step);
      run := [m] + rest;
      Distributes(step, 1, |rest| - 1);
    }
  }

  lemma {:induction false} DownIsDown(active: string, size: nat, now: int)
    requires OnRoster(active, size)
    ensures Down(DownAt(active, size, now), size)
    ensures exists n <- DownAt(active, size, now).nodes :: n.alive && n.name != "" && n.lastTestedAt >= now
  {
    var nodes := Roster(size, now);
    assert nodes[0] in nodes && Marks(1)[0] == '|';
  }

  lemma {:induction false} LastIsDown(run: seq<Moment>, size: nat)
    requires AllDown(run, size) && run != []
    ensures OnRoster(run[|run| - 1].observation.active, size)
  {
    hide OnRoster;
    assert Down(run[|run| - 1].observation, size);
  }

  /** Nodes tested now end a requalification. */
  lemma {:induction false} Resuming(rating: Rating, policy: Policy, before: State, o: Observation) returns (m: Moment)
    requires 0 < before.qualificationSince <= o.now && Unhindered(before, o.now)
    requires o.wan && o.control == Control(true, Auto, "", 0)
    requires exists n <- o.nodes :: n.alive && n.name != "" && n.lastTestedAt >= before.qualificationSince
    ensures Ran(rating, policy, m) && m.before == before && m.observation == o && m.At() == o.now
    ensures m.decision.action.Resume?
    ensures m.after == Entered(before, o, o.now).(
              wanAvailable := true, status := QualifiedServersReady, failedNodes := 0, failureWindowStart := 0,
              qualificationSince := 0, cooldowns := map[])
  {
    hide Candidates, Seconds;
    var kept := TestedSince(rating, o.nodes, Auto, before.qualificationSince);
    CandidatesMembers(rating, o.nodes, NoPool, map[], "");
    FilterMembers(Tested(before.qualificationSince), Candidates(rating, o.nodes, NoPool, map[], ""));
    var n :| n in o.nodes && n.alive && n.name != "" && n.lastTestedAt >= before.qualificationSince;
    assert n in kept;
    var out := StepState(rating, before, o, policy, o.now);
    m := Moment(before, o, o.now, out.state, out.decision);
  }

  // ----- A refresh that brings the next request closer

  /** The transport has no nodes and so no active one. */
  function Exhausting(now: int): Observation {
    Observation(now, true, false, "", NoPool, [], Control(true, Auto, "", 0))
  }

  /** The only node is an emergency node tested at `tested`; it is active and works. */
  function OnEmergency(now: int, tested: int): Observation {
    Observation(now, true, true, "e", Emergency, [Node("e", Emergency, true, Metrics(0, 0.0, 0.0, 0, 0), tested)],
                Control(true, Auto, "", 0))
  }

  /** The active node is one of the list, and none is active if the list is empty. */
  predicate ShowsActive(o: Observation) {
    if o.active == "" then o.nodes == [] else exists n <- o.nodes :: n.name == o.active && n.pool == o.activePool
  }

  lemma {:induction false} EmptyAndEmergencyAreShown(now: int, tested: int)
    ensures ShowsActive(Exhausting(now)) && ShowsActive(OnEmergency(now, tested))
  {
    var o := OnEmergency(now, tested);
    assert o.nodes[0] in o.nodes;
  }

  lemma {:induction false} NoNodes(rating: Rating, pool: Pool, cooldowns: map<string, int>, exclude: string,
          keep: Node -> bool)
    ensures Candidates(rating, [], pool, cooldowns, exclude) == []
    ensures Filter(keep, Candidates(rating, [], pool, cooldowns, exclude)) == []
  {
  }

  /** Nobody left to try, at `now`: with suspension this is a request. */
  lemma {:induction false} Exhausted(rating: Rating, policy: Policy, before: State, now: int) returns (m: Moment)
    requires policy.poolFailureLimit <= 0 && policy.suspendOnExhaustion && now > 0
    requires before.qualificationSince == 0 && !before.status.InternetDown? && before.recoveryGraceUntil <= now
    requires before.nextSwitchAttempt <= now && before.nextPoolRefresh <= now
    ensures Ran(rating, policy, m) && m.before == before && m.observation == Exhausting(now) && m.At() == now
    ensures m.decision.action.Requalify? && !IsBatch(m.decision)
    ensures m.after.qualificationSince == now && m.after.nextPoolRefresh == now + Seconds(policy.qualificationRetry)
    ensures m.after.nextSwitchAttempt == now + Seconds(policy.retryAfter)
    ensures !m.after.status.InternetDown? && m.after.recoveryGraceUntil == before.recoveryGraceUntil
    ensures m.after.nextRecoveryCheck == before.nextRecoveryCheck
    ensures m.after.recoveryRequestedAt == before.recoveryRequestedAt
  {
    hide CoolPool, Seconds;
    var o := Exhausting(now);
    NoNodes(rating, NoPool, Purge(before.cooldowns, now), "", Tested(0));
    hide Candidates;
    var out := StepState(rating, before, o, policy, now);
    m := Moment(before, o, now, out.state, out.decision);
  }

  /** Still nobody when the retry period is over: the request is repeated. */
  lemma {:induction false} Retrying(rating: Rating, policy: Policy, before: State, now: int) returns (m: Moment)
    requires before.qualificationSince > 0 && before.nextPoolRefresh <= now && now > 0
    requires !before.status.InternetDown? && before.recoveryGraceUntil <= now
    ensures Ran(rating, policy, m) && m.before == before && m.observation == Exhausting(now) && m.At() == now
    ensures m.decision.action.Requalify?
    ensures m.after == Entered(before, Exhausting(now), now).(
              wanAvailable := true, status := ServersUnavailable, qualificationSince := now,
              nextPoolRefresh := now + Seconds(policy.qualificationRetry))
  {
    hide Seconds;
    var o := Exhausting(now);
    NoNodes(rating, NoPool, map[], "", Tested(before.qualificationSince));
    hide Candidates;
    var out := StepState(rating, before, o, policy, now);
    m := Moment(before, o, now, out.state, out.decision);
  }

  /** A working emergency node asks for a refresh of the primary pool, which sets the next refresh anew. */
  lemma {:induction false} Refreshing(rating: Rating, policy: Policy, before: State, now: int, tested: int)
      returns (m: Moment)
    requires before.qualificationSince == 0 && !before.status.InternetDown? && before.recoveryGraceUntil <= now
    requires now > 0
    requires before.nextRecoveryCheck <= now && before.recoveryRequestedAt == 0
    ensures Ran(rating, policy, m) && m.before == before && m.observation == OnEmergency(now, tested) && m.At() == now
    ensures m.decision.action.Refresh?
    ensures m.after.qualificationSince == 0 && !m.after.status.InternetDown?
    ensures m.after.recoveryGraceUntil == before.recoveryGraceUntil
    ensures m.after.nextSwitchAttempt == before.nextSwitchAttempt
    ensures m.after.nextPoolRefresh == now + Seconds(policy.poolRefreshCooldown)
  {
    hide Seconds, Outranks;
    var o, cooldowns := OnEmergency(now, tested), Purge(before.cooldowns, now);
    var better := Candidates(rating, o.nodes, Primary, cooldowns, "");
    HeadIsBest(rating, o.nodes, Primary, cooldowns, "");
    assert better == [];
    assert Filter(Retested(0), []) == [];
    hide Candidates;
    var out := StepState(rating, before, o, policy, now);
    m := Moment(before, o, now, out.state, out.decision);
  }

  /** Nothing left, asked again, resumed with an emergency node, a refresh for it, and nothing left once more before the
      retry period is over. */
  lemma {:induction false} RefreshBringsRequestCloser(rating: Rating, policy: Policy) returns (run: seq<Moment>)
    requires policy.poolFailureLimit <= 0 && policy.suspendOnExhaustion
    requires Seconds(policy.poolRefreshCooldown) < Seconds(policy.qualificationRetry)
    requires 0 < Seconds(policy.qualificationRetry)
    ensures IsRun(rating, policy, run) && ClockRuns(run) && |run| == 5 && run[0].before == INITIAL
    ensures run[1].decision.action.Requalify? && run[2].decision.action.Resume? && run[3].decision.action.Refresh?
    ensures run[4].decision.action.Requalify? && !IsBatch(run[4].decision)
    ensures forall k :: 0 <= k < |run| ==> ShowsActive(run[k].observation)
    ensures !Spaced(policy, run)
  {
    hide Seconds, Ran, Now, ShowsActive;
    var retry, refresh, wait := Seconds(policy.qualificationRetry), Seconds(policy.poolRefreshCooldown),
        Seconds(policy.retryAfter);
    var t := 1000 + (if retry < wait then wait else retry);
    var again := t + (if refresh < 0 then 0 else refresh);
    var first := Exhausted(rating, policy, INITIAL, 1000);
    var second := Retrying(rating, policy, first.after, t);
    var emergency := OnEmergency(t, t);
    assert emergency.nodes[0] in emergency.nodes;
    assert ShowsActive(emergency) && ShowsActive(Exhausting(1000)) && ShowsActive(Exhausting(t))
        && ShowsActive(Exhausting(again)) by {
      EmptyAndEmergencyAreShown(1000, t);
      EmptyAndEmergencyAreShown(t, t);
      EmptyAndEmergencyAreShown(again, t);
    }
    var resume := Resuming(rating, policy, second.after, emergency);
    var refreshing := Refreshing(rating, policy, resume.after, t, t);
    var last := Exhausted(rating, policy, refreshing.after, again);
    run := [first, second, resume, refreshing, last];
    assert Consecutive(run, 1, 4);
  }
}
