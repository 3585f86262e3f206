/** One step of the failover controller: from the stored state and an observation to a decision. */
module Controller {
  import opened Wrappers
  import opened Rank
  import opened Seqs
  import opened StableSort
  import Lex

  /** `NoPool` is the empty pool name: unknown as an observation, any pool as a filter. */
  datatype Pool = NoPool | Primary | Emergency | OtherPool(name: string)

  datatype Node = Node(name: string, pool: Pool, alive: bool, metrics: Metrics, lastTestedAt: int)

  datatype Mode = Auto | Manual | EmergencyOnly

  datatype Control = Control(enabled: bool, mode: Mode, manualNode: string, manualUntil: int)

  datatype Observation = Observation(
    now: int, wan: bool, activeOk: bool, active: string, activePool: Pool, nodes: seq<Node>, control: Control)

  datatype Status =
    | Fresh | InternetDown | RecoveryGrace | Disabled | QualifiedServersReady | ServersUnavailable
    | ManualTargetUnavailable | ManualProxyOk | ManualProxyDegraded
    | ProxyOk | ProxyDegraded | EmergencyProxyOk | EmergencyProxyDegraded

  datatype State = State(
    status: Status, mode: Mode, active: string, activePool: Pool,
    failureStreak: int, lastSwitch: int, lastCycle: int, internetDownSince: int, wanAvailable: bool,
    recoveryGraceUntil: int, recoveryStreak: int, recoveryTarget: string, recoveryRequestedAt: int,
    nextSwitchAttempt: int, nextRecoveryCheck: int, nextPoolRefresh: int,
    failedNodes: int, failureWindowStart: int, qualificationSince: int,
    cooldowns: map<string, int>, rankTarget: string, rankStreak: int, nextRankCheck: int)

  const INITIAL := State(Fresh, Auto, "", NoPool, 0, 0, 0, 0, false, 0, 0, "", 0, 0, 0, 0, 0, 0, 0, map[], "", 0, 0)

  datatype Action = Keep | Freeze | Select | Requalify | Resume | Suspend | Refresh

  datatype Reason =
    | DirectEgressUnreachable | InternetRestored | InRecoveryGrace | ServiceDisabled
    | QualifiedServersAvailable | RetryServerQualification | AwaitingQualifiedServers
    | ManualTargetMissing | ManualControl | ManualHealthy | ManualDegraded
    | HigherRankStable | HigherPriorityStable | FailbackProbe | RefreshPrimaryBeforeFailback | AwaitingFreshPrimary
    | ActiveHealthy | FailureThresholdPending | FailureBatch | ActiveFailed | NoWorkingCandidate
    | EmergencyActiveHealthy | EmergencyThresholdPending | EmergencyFailureBatch | EmergencySelect
    | EmergencyNoCandidate

  datatype Decision = Decision(action: Action, target: string, pool: Pool, reason: Reason)

  datatype Outcome = Outcome(state: State, decision: Decision)

  /** Durations in nanoseconds. */
  datatype Policy = Policy(
    failureLimit: int, retryAfter: int, cooldown: int, recoveryInterval: int, recoveryStableChecks: int,
    recoveryGrace: int, poolRefreshCooldown: int, poolFailureLimit: int, failureWindow: int,
    qualificationRetry: int, suspendOnExhaustion: bool, rankUpgradeInterval: int)

  const SECOND := 1_000_000_000

  const DEFAULT_POLICY := Policy(2, 30 * SECOND, 900 * SECOND, 20 * SECOND, 2, 10 * SECOND, 900 * SECOND,
                                 0, 300 * SECOND, 300 * SECOND, false, 0)

  const MANAGED_POLICY :=
      DEFAULT_POLICY.(poolFailureLimit := 3, suspendOnExhaustion := true, rankUpgradeInterval := 20 * SECOND)

  const DIRECT := "DIRECT-EGRESS"

  /** Whole seconds of a duration, truncated toward zero. */
  function Seconds(duration: int): int {
    if duration >= 0 then duration / SECOND else -((-duration) / SECOND)
  }

  // ----- Candidates

  function PoolPriority(pool: Pool): int {
    match pool case Primary => 0 case Emergency => 1 case _ => 2
  }

  predicate Better(rating: Rating, a: Node, b: Node) {
    if PoolPriority(a.pool) != PoolPriority(b.pool) then PoolPriority(a.pool) < PoolPriority(b.pool)
    else if rating(a.metrics) != rating(b.metrics) then rating(a.metrics) > rating(b.metrics)
    else Lex.Less(a.name, b.name)
  }

  predicate Eligible(pool: Pool, cooldowns: map<string, int>, exclude: string, n: Node) {
    n.alive && n.name != exclude && (pool == NoPool || n.pool == pool) && n.name !in cooldowns
  }

  function ByRank(rating: Rating): (Node, Node) -> bool {
    (a, b) => Better(rating, a, b)
  }

  function Chosen(pool: Pool, cooldowns: map<string, int>, exclude: string): Node -> bool {
    n => Eligible(pool, cooldowns, exclude, n)
  }

  /** Tested at or after `since`. */
  function Tested(since: int): Node -> bool {
    (n: Node) => n.lastTestedAt >= since
  }

  /** Tested at or after a request that was made. */
  function Retested(since: int): Node -> bool {
    (n: Node) => since > 0 && n.lastTestedAt >= since
  }

  function Candidates(rating: Rating, nodes: seq<Node>, pool: Pool, cooldowns: map<string, int>,
          exclude: string): seq<Node> {
    Sort(ByRank(rating), Filter(Chosen(pool, cooldowns, exclude), nodes))
  }

  method CollectCandidates(rating: Rating, nodes: seq<Node>, pool: Pool, cooldowns: map<string, int>, exclude: string)
    returns (result: seq<Node>)
    ensures result == Candidates(rating, nodes, pool, cooldowns, exclude)
  {
    ghost var keep := Chosen(pool, cooldowns, exclude);
    result := [];
    for i := 0 to |nodes|
      invariant result == Filter(keep, nodes[..i])
    {
      FilterNext(keep, nodes, i);
      var node := nodes[i];
      if !node.alive || node.name == exclude || (pool != NoPool && node.pool != pool) {
        continue;
      }
      if node.name in cooldowns {
        continue;
      }
      result := result + [node];
    }
    assert nodes[..|nodes|] == nodes;
    result := Sort(ByRank(rating), result);
  }

  function QualificationPool(mode: Mode): Pool {
    if mode == EmergencyOnly then Emergency else NoPool
  }

  function TestedSince(rating: Rating, nodes: seq<Node>, mode: Mode, since: int): seq<Node> {
    Filter(Tested(since), Candidates(rating, nodes, QualificationPool(mode), map[], ""))
  }

  method CollectTestedSince(rating: Rating, nodes: seq<Node>, mode: Mode, since: int) returns (result: seq<Node>)
    ensures result == TestedSince(rating, nodes, mode, since)
  {
    var ranked := CollectCandidates(rating, nodes, QualificationPool(mode), map[], "");
    ghost var keep := Tested(since);
    result := [];
    for i := 0 to |ranked|
      invariant result == Filter(keep, ranked[..i])
    {
      FilterNext(keep, ranked, i);
      if ranked[i].lastTestedAt >= since {
        result := result + [ranked[i]];
      }
    }
    assert ranked[..|ranked|] == ranked;
  }

  function NodeByName(nodes: seq<Node>, name: string): Option<Node> {
    if nodes == [] then None
    else if nodes[0].name == name then Some(nodes[0])
    else NodeByName(nodes[1..], name)
  }

  method FindNode(nodes: seq<Node>, name: string) returns (node: Option<Node>)
    ensures node == NodeByName(nodes, name)
  {
    for i := 0 to |nodes|
      invariant NodeByName(nodes, name) == NodeByName(nodes[i..], name)
    {
      if nodes[i].name == name {
        return Some(nodes[i]);
      }
      assert nodes[i..][1..] == nodes[i + 1..];
    }
    return None;
  }

  function CurrentPool(o: Observation): Pool {
    if o.activePool != NoPool then o.activePool
    else
      var node := NodeByName(o.nodes, o.active);
      if node.Some? then node.value.pool else NoPool
  }

  // ----- The step as a function

  function Now(o: Observation, wall: int): int {
    if o.now == 0 then wall else o.now
  }

  function EffectiveMode(c: Control, now: int): Mode {
    if c.mode == Manual && c.manualUntil > 0 && now >= c.manualUntil then Auto else c.mode
  }

  function Purge(cooldowns: map<string, int>, now: int): map<string, int> {
    map name | name in cooldowns && cooldowns[name] > now :: cooldowns[name]
  }

  function Plain(action: Action, reason: Reason): Decision {
    Decision(action, "", NoPool, reason)
  }

  function Named(action: Action, n: Node, reason: Reason): Decision {
    Decision(action, n.name, n.pool, reason)
  }

  function Entered(s: State, o: Observation, now: int): State {
    s.(lastCycle := now, cooldowns := Purge(s.cooldowns, now), mode := EffectiveMode(o.control, now))
  }

  function StepState(rating: Rating, previous: State, o: Observation, policy: Policy, wall: int): Outcome {
    var now := Now(o, wall);
    var s := Entered(previous, o, now);
    if !o.wan then
      Outcome(s.(status := InternetDown, wanAvailable := false, failureStreak := 0,
                 internetDownSince := if s.internetDownSince == 0 then now else s.internetDownSince),
              Plain(Freeze, DirectEgressUnreachable))
    else Online(rating, s.(wanAvailable := true), o, policy, now)
  }

  function Online(rating: Rating, s: State, o: Observation, policy: Policy, now: int): Outcome {
    if s.status == InternetDown then
      Outcome(s.(status := RecoveryGrace, internetDownSince := 0, failureStreak := 0,
                 recoveryGraceUntil := now + Seconds(policy.recoveryGrace)),
              Plain(Keep, InternetRestored))
    else if now < s.recoveryGraceUntil then Outcome(s, Plain(Keep, InRecoveryGrace))
    else if !o.control.enabled then
      Outcome(s.(status := Disabled, active := o.active, activePool := NoPool, failureStreak := 0,
                 failedNodes := 0, failureWindowStart := 0, qualificationSince := 0),
              if o.active != DIRECT then Decision(Select, DIRECT, NoPool, ServiceDisabled)
                  else Plain(Keep, ServiceDisabled))
    else if s.qualificationSince > 0 then Qualifying(rating, s, o, policy, now)
    else if s.mode == Manual then Steered(s, o)
    else if s.mode == EmergencyOnly then EmergencyStep(rating, s, o, policy, now)
    else AutoStep(rating, s, o, policy, now)
  }

  function AutoStep(rating: Rating, s: State, o: Observation, policy: Policy, now: int): Outcome {
    var s := (if s.active != o.active then s.(rankTarget := "", rankStreak := 0) else s)
             .(active := o.active, activePool := CurrentPool(o));
    if o.active != "" && o.active != DIRECT && o.activeOk then Healthy(rating, s, o, policy, now)
    else Degraded(rating, s, o, policy, now)
  }

  /** Every candidate was exhausted: wait for a node tested since the last request. */
  function Qualifying(rating: Rating, s: State, o: Observation, policy: Policy, now: int): Outcome {
    var tested := TestedSince(rating, o.nodes, s.mode, s.qualificationSince);
    if tested != [] then
      Outcome(s.(status := QualifiedServersReady, failedNodes := 0, failureWindowStart := 0, qualificationSince := 0,
          cooldowns := map[]),
              Named(Resume, tested[0], QualifiedServersAvailable))
    else if now >= s.nextPoolRefresh then
      Outcome(s.(status := ServersUnavailable, qualificationSince := now,
          nextPoolRefresh := now + Seconds(policy.qualificationRetry)),
              Decision(Requalify, "", QualificationPool(s.mode), RetryServerQualification))
    else Outcome(s.(status := ServersUnavailable), Plain(Suspend, AwaitingQualifiedServers))
  }

  function Steered(s: State, o: Observation): Outcome {
    var target := NodeByName(o.nodes, o.control.manualNode);
    if target.None? || !target.value.alive then
      Outcome(s.(status := ManualTargetUnavailable, failureStreak := s.failureStreak + 1),
          Plain(Keep, ManualTargetMissing))
    else
      var t := s.(active := o.active, activePool := target.value.pool);
      if o.active != target.value.name then Outcome(t, Named(Select, target.value, ManualControl))
      else if o.activeOk then Outcome(t.(failureStreak := 0, status := ManualProxyOk), Plain(Keep, ManualHealthy))
      else Outcome(t.(failureStreak := s.failureStreak + 1, status := ManualProxyDegraded), Plain(Keep, ManualDegraded))
  }

  /** The rank comparison passed: the best other primary node beats the active one by 75 points. */
  predicate Outranks(rating: Rating, s: State, o: Observation) {
    var current := NodeByName(o.nodes, o.active);
    var better := Candidates(rating, o.nodes, Primary, s.cooldowns, o.active);
    current.Some? && better != [] && rating(better[0].metrics) >= rating(current.value.metrics) + 75.0
  }

  predicate RankCheckDue(s: State, policy: Policy, now: int) {
    s.activePool == Primary && policy.rankUpgradeInterval > 0 && now >= s.nextRankCheck
  }

  function CountRank(rating: Rating, s: State, o: Observation, policy: Policy, now: int): State {
    var s := s.(nextRankCheck := now + Seconds(policy.rankUpgradeInterval));
    if Outranks(rating, s, o) then
      var best := Candidates(rating, o.nodes, Primary, s.cooldowns, o.active)[0].name;
      s.(rankTarget := best, rankStreak := if s.rankTarget == best then s.rankStreak + 1 else 1)
    else s.(rankTarget := "", rankStreak := 0)
  }

  function Healthy(rating: Rating, s: State, o: Observation, policy: Policy, now: int): Outcome {
    var s := s.(status := ProxyOk, failureStreak := 0);
    var due := RankCheckDue(s, policy, now);
    var counted := if due then CountRank(rating, s, o, policy, now) else s;
    if due && Outranks(rating, s, o) && counted.rankStreak >= 2 then
      var best := Candidates(rating, o.nodes, Primary, s.cooldowns, o.active)[0];
      Outcome(counted.(rankTarget := "", rankStreak := 0, nextRankCheck := now + 60),
              Decision(Select, best.name, Primary, HigherRankStable))
    else
      var s := ExpireWindow(counted, policy, now);
      if s.activePool == Emergency && now >= s.nextRecoveryCheck then Failback(rating, s, o, policy, now)
      else Outcome(s, Plain(Keep, ActiveHealthy))
  }

  function ExpireWindow(s: State, policy: Policy, now: int): State {
    if s.failedNodes > 0 && s.failureWindowStart > 0 && now - s.failureWindowStart >= Seconds(policy.failureWindow)
    then s.(failedNodes := 0, failureWindowStart := 0) else s
  }

  function Failback(rating: Rating, s: State, o: Observation, policy: Policy, now: int): Outcome {
    var s := s.(nextRecoveryCheck := now + Seconds(policy.recoveryInterval));
    var better := Candidates(rating, o.nodes, Primary, s.cooldowns, "");
    var tested := Filter(Retested(s.recoveryRequestedAt), better);
    if tested != [] then
      var streak := if s.recoveryTarget == tested[0].name then s.recoveryStreak + 1 else 1;
      if streak >= policy.recoveryStableChecks then
        Outcome(s.(recoveryStreak := 0, recoveryTarget := "", recoveryRequestedAt := 0),
            Named(Select, tested[0], HigherPriorityStable))
      else
        Outcome(s.(recoveryStreak := streak, recoveryTarget := tested[0].name), Named(Keep, tested[0], FailbackProbe))
    else if s.recoveryRequestedAt == 0 || now >= s.nextPoolRefresh then
      Outcome(s.(recoveryRequestedAt := now, nextPoolRefresh := now + Seconds(policy.poolRefreshCooldown),
                 recoveryStreak := 0, recoveryTarget := ""),
              Decision(Refresh, "", Primary, RefreshPrimaryBeforeFailback))
    else if better != [] then Outcome(s, Decision(Keep, "", Primary, AwaitingFreshPrimary))
    else Outcome(s, Plain(Keep, ActiveHealthy))
  }

  /** The active node failed: it cools down and counts towards the failure batch. */
  function CoolDown(s: State, o: Observation, policy: Policy, now: int): State {
    s.(cooldowns := s.cooldowns[o.active := now + Seconds(policy.cooldown)], failedNodes := s.failedNodes + 1,
       failureWindowStart := if s.failureWindowStart == 0 then now else s.failureWindowStart)
  }

  function Degraded(rating: Rating, s: State, o: Observation, policy: Policy, now: int): Outcome {
    var s := s.(status := ProxyDegraded, rankTarget := "", rankStreak := 0,
                failureStreak := if o.active == "" || o.active == DIRECT then policy.failureLimit
                    else s.failureStreak + 1);
    if s.failureStreak < policy.failureLimit || now < s.nextSwitchAttempt
        then Outcome(s, Plain(Keep, FailureThresholdPending))
    else Replacement(rating, s, o, policy, now, false, o.active != "")
  }

  /** Leave the active node: it cools down if it `counts`; a full batch requalifies, else the best candidate takes
      over. */
  function Replacement(rating: Rating, s: State, o: Observation, policy: Policy, now: int, emergency: bool,
          counts: bool): Outcome {
    var pool := if emergency then Emergency else NoPool;
    var s := if counts then CoolDown(s, o, policy, now) else s;
    if counts && policy.poolFailureLimit > 0 && s.failedNodes >= policy.poolFailureLimit then
      Requalification(s, o, policy, now, if emergency then EmergencyFailureBatch else FailureBatch, pool)
    else
      var all := Candidates(rating, o.nodes, pool, s.cooldowns, o.active);
      if all != [] then Outcome(s, Named(Select, all[0], if emergency then EmergencySelect else ActiveFailed))
      else Exhausted(s, o, policy, now, if emergency then EmergencyNoCandidate else NoWorkingCandidate, pool)
  }

  function Exhausted(s: State, o: Observation, policy: Policy, now: int, reason: Reason, pool: Pool): Outcome {
    var s := s.(nextSwitchAttempt := now + Seconds(policy.retryAfter));
    if now < s.nextPoolRefresh then Outcome(s, Plain(Keep, reason))
    else if policy.suspendOnExhaustion then Requalification(s, o, policy, now, reason, pool)
    else Outcome(s.(nextPoolRefresh := now + Seconds(policy.poolRefreshCooldown)), Decision(Refresh, "", pool, reason))
  }

  function EmergencyStep(rating: Rating, s: State, o: Observation, policy: Policy, now: int): Outcome {
    var pool := CurrentPool(o);
    if pool == Emergency && o.activeOk then
      var s := s.(active := o.active, activePool := pool, status := EmergencyProxyOk, failureStreak := 0);
      Outcome(ExpireWindow(s, policy, now), Plain(Keep, EmergencyActiveHealthy))
    else
      var s := EmergencyFailing(s, o, policy);
      if s.failureStreak < policy.failureLimit || now < s.nextSwitchAttempt
      then Outcome(s, Plain(Keep, EmergencyThresholdPending))
      else Replacement(rating, s, o, policy, now, true, pool == Emergency && o.active != "")
  }

  /** The emergency node does not work, or none is in use. */
  function EmergencyFailing(s: State, o: Observation, policy: Policy): State {
    var pool := CurrentPool(o);
    var none := pool != Emergency || o.active == "" || o.active == DIRECT;
    s.(active := o.active, activePool := pool, status := EmergencyProxyDegraded,
       failureStreak := if none then policy.failureLimit else s.failureStreak + 1)
  }

  /** Every node of the pool cools down together. */
  function CoolPool(cooldowns: map<string, int>, nodes: seq<Node>, pool: Pool, until: int): map<string, int> {
    if nodes == [] then cooldowns
    else
      var front, n := CoolPool(cooldowns, nodes[..|nodes| - 1], pool, until), nodes[|nodes| - 1];
      if pool == NoPool || n.pool == pool then front[n.name := until] else front
  }

  function Requalification(s: State, o: Observation, policy: Policy, now: int, reason: Reason, pool: Pool): Outcome {
    Outcome(s.(cooldowns := CoolPool(s.cooldowns, o.nodes, pool, now + Seconds(policy.cooldown)),
               status := ServersUnavailable, qualificationSince := now,
               nextPoolRefresh := now + Seconds(policy.qualificationRetry)),
            Decision(Requalify, "", pool, reason))
  }

  // ----- The step as the source runs it

  method Step(rating: Rating, previous: State, observation: Observation, policy: Policy, wall: int)
    returns (state: State, decision: Decision)
    ensures Outcome(state, decision) == StepState(rating, previous, observation, policy, wall)
  {
    var now := observation.now;
    if now == 0 {
      now := wall;
    }
    var cooldowns := map name | name in previous.cooldowns && !(previous.cooldowns[name] <= now) ::
          previous.cooldowns[name];
    assert cooldowns == Purge(previous.cooldowns, now);
    var mode := observation.control.mode;
    if mode == Manual && observation.control.manualUntil > 0 && now >= observation.control.manualUntil {
      mode := Auto;
    }
    state := previous.(lastCycle := now, cooldowns := cooldowns, mode := mode);
    if !observation.wan {
      var since := state.internetDownSince;
      if since == 0 {
        since := now;
      }
      state := state.(status := InternetDown, wanAvailable := false, failureStreak := 0, internetDownSince := since);
      return state, Plain(Freeze, DirectEgressUnreachable);
    }
    state := state.(wanAvailable := true);
    state, decision := StepOnline(rating, state, observation, policy, now);
  }

  method StepOnline(rating: Rating, previous: State, observation: Observation, policy: Policy, now: int)
    returns (state: State, decision: Decision)
    ensures Outcome(state, decision) == Online(rating, previous, observation, policy, now)
  {
    state := previous;
    if state.status == InternetDown {
      state := state.(status := RecoveryGrace, internetDownSince := 0, failureStreak := 0,
                      recoveryGraceUntil := now + Seconds(policy.recoveryGrace));
      return state, Plain(Keep, InternetRestored);
    }
    if now < state.recoveryGraceUntil {
      return state, Plain(Keep, InRecoveryGrace);
    }
    if !observation.control.enabled {
      state := state.(status := Disabled, active := observation.active, activePool := NoPool, failureStreak := 0,
                      failedNodes := 0, failureWindowStart := 0, qualificationSince := 0);
      if observation.active != DIRECT {
        return state, Decision(Select, DIRECT, NoPool, ServiceDisabled);
      }
      return state, Plain(Keep, ServiceDisabled);
    }
    if state.qualificationSince > 0 {
      state, decision := StepQualifying(rating, state, observation, policy, now);
      return;
    }
    if state.mode == Manual {
      state, decision := StepManual(state, observation);
      return;
    }
    if state.mode == EmergencyOnly {
      state, decision := StepEmergency(rating, state, observation, policy, now);
      return;
    }
    state, decision := StepAuto(rating, state, observation, policy, now);
  }

  method StepAuto(rating: Rating, previous: State, observation: Observation, policy: Policy, now: int)
    returns (state: State, decision: Decision)
    ensures Outcome(state, decision) == AutoStep(rating, previous, observation, policy, now)
  {
    var currentPool := ObservedPool(observation);
    state := previous;
    if state.active != observation.active {
      state := state.(rankTarget := "", rankStreak := 0);
    }
    state := state.(active := observation.active, activePool := currentPool);
    if observation.active != "" && observation.active != DIRECT && observation.activeOk {
      state, decision := StepHealthy(rating, state, observation, policy, now);
      return;
    }
    state, decision := StepDegraded(rating, state, observation, policy, now);
  }

  method ObservedPool(observation: Observation) returns (pool: Pool)
    ensures pool == CurrentPool(observation)
  {
    pool := observation.activePool;
    if pool == NoPool {
      var node := FindNode(observation.nodes, observation.active);
      if node.Some? {
        pool := node.value.pool;
      }
    }
  }

  method StepQualifying(rating: Rating, previous: State, observation: Observation, policy: Policy, now: int)
    returns (state: State, decision: Decision)
    ensures Outcome(state, decision) == Qualifying(rating, previous, observation, policy, now)
  {
    var tested := CollectTestedSince(rating, observation.nodes, previous.mode, previous.qualificationSince);
    if |tested| > 0 {
      state := previous.(status := QualifiedServersReady, failedNodes := 0, failureWindowStart := 0,
                         qualificationSince := 0, cooldowns := map[]);
      return state, Named(Resume, tested[0], QualifiedServersAvailable);
    }
    state := previous.(status := ServersUnavailable);
    if now >= state.nextPoolRefresh {
      state := state.(qualificationSince := now, nextPoolRefresh := now + Seconds(policy.qualificationRetry));
      return state, Decision(Requalify, "", QualificationPool(previous.mode), RetryServerQualification);
    }
    return state, Plain(Suspend, AwaitingQualifiedServers);
  }

  method StepManual(previous: State, observation: Observation) returns (state: State, decision: Decision)
    ensures Outcome(state, decision) == Steered(previous, observation)
  {
    var target := FindNode(observation.nodes, observation.control.manualNode);
    if target.None? || !target.value.alive {
      state := previous.(status := ManualTargetUnavailable, failureStreak := previous.failureStreak + 1);
      return state, Plain(Keep, ManualTargetMissing);
    }
    state := previous.(active := observation.active, activePool := target.value.pool);
    if observation.active != target.value.name {
      return state, Named(Select, target.value, ManualControl);
    }
    if !observation.activeOk {
      state := state.(status := ManualProxyDegraded, failureStreak := previous.failureStreak + 1);
      return state, Plain(Keep, ManualDegraded);
    }
    state := state.(failureStreak := 0, status := ManualProxyOk);
    return state, Plain(Keep, ManualHealthy);
  }

  method StepHealthy(rating: Rating, previous: State, observation: Observation, policy: Policy, now: int)
    returns (state: State, decision: Decision)
    ensures Outcome(state, decision) == Healthy(rating, previous, observation, policy, now)
  {
    hide Candidates, Filter;
    state := previous.(status := ProxyOk, failureStreak := 0);
    if state.activePool == Primary && policy.rankUpgradeInterval > 0 && now >= state.nextRankCheck {
      state := state.(nextRankCheck := now + Seconds(policy.rankUpgradeInterval));
      var current := FindNode(observation.nodes, observation.active);
      var better := CollectCandidates(rating, observation.nodes, Primary, state.cooldowns, observation.active);
      if current.Some? && |better| > 0 && rating(better[0].metrics) >= rating(current.value.metrics) + 75.0 {
        if state.rankTarget == better[0].name {
          state := state.(rankStreak := state.rankStreak + 1);
        } else {
          state := state.(rankTarget := better[0].name, rankStreak := 1);
        }
        if state.rankStreak >= 2 {
          state := state.(rankTarget := "", rankStreak := 0);
          state := state.(nextRankCheck := now + 60);
          return state, Decision(Select, better[0].name, Primary, HigherRankStable);
        }
      } else {
        state := state.(rankTarget := "", rankStreak := 0);
      }
    }
    if state.failedNodes > 0 && state.failureWindowStart > 0
        && now - state.failureWindowStart >= Seconds(policy.failureWindow) {
      state := state.(failedNodes := 0, failureWindowStart := 0);
    }
    if state.activePool == Emergency && now >= state.nextRecoveryCheck {
      state, decision := StepFailback(rating, state, observation, policy, now);
      return;
    }
    return state, Plain(Keep, ActiveHealthy);
  }

  method StepFailback(rating: Rating, previous: State, observation: Observation, policy: Policy, now: int)
    returns (state: State, decision: Decision)
    ensures Outcome(state, decision) == Failback(rating, previous, observation, policy, now)
  {
    hide Candidates;
    state := previous.(nextRecoveryCheck := now + Seconds(policy.recoveryInterval));
    var better := CollectCandidates(rating, observation.nodes, Primary, state.cooldowns, "");
    ghost var keep := Retested(state.recoveryRequestedAt);
    var tested := [];
    for i := 0 to |better|
      invariant tested == Filter(keep, better[..i])
    {
      FilterNext(keep, better, i);
      if state.recoveryRequestedAt > 0 && better[i].lastTestedAt >= state.recoveryRequestedAt {
        tested := tested + [better[i]];
      }
    }
    assert better[..|better|] == better;
    if |tested| > 0 {
      var target := tested[0];
      if state.recoveryTarget == target.name {
        state := state.(recoveryStreak := state.recoveryStreak + 1);
      } else {
        state := state.(recoveryTarget := target.name, recoveryStreak := 1);
      }
      if state.recoveryStreak >= policy.recoveryStableChecks {
        state := state.(recoveryStreak := 0, recoveryTarget := "", recoveryRequestedAt := 0);
        return state, Named(Select, target, HigherPriorityStable);
      }
      return state, Named(Keep, target, FailbackProbe);
    }
    if state.recoveryRequestedAt == 0 || now >= state.nextPoolRefresh {
      state := state.(recoveryRequestedAt := now);
      state := state.(nextPoolRefresh := now + Seconds(policy.poolRefreshCooldown));
      state := state.(recoveryStreak := 0, recoveryTarget := "");
      return state, Decision(Refresh, "", Primary, RefreshPrimaryBeforeFailback);
    }
    if |better| > 0 {
      return state, Decision(Keep, "", Primary, AwaitingFreshPrimary);
    }
    return state, Plain(Keep, ActiveHealthy);
  }

  method StepDegraded(rating: Rating, previous: State, observation: Observation, policy: Policy, now: int)
    returns (state: State, decision: Decision)
    ensures Outcome(state, decision) == Degraded(rating, previous, observation, policy, now)
  {
    var streak := previous.failureStreak + 1;
    if observation.active == "" || observation.active == DIRECT {
      streak := policy.failureLimit;
    }
    state := previous.(status := ProxyDegraded, rankTarget := "", rankStreak := 0, failureStreak := streak);
    if streak < policy.failureLimit || now < state.nextSwitchAttempt {
      return state, Plain(Keep, FailureThresholdPending);
    }
    state, decision := Replace(rating, state, observation, policy, now, false, observation.active != "");
  }

  method StepEmergency(rating: Rating, previous: State, observation: Observation, policy: Policy, now: int)
    returns (state: State, decision: Decision)
    ensures Outcome(state, decision) == EmergencyStep(rating, previous, observation, policy, now)
  {
    var currentPool := ObservedPool(observation);
    if currentPool == Emergency && observation.activeOk {
      state := previous.(active := observation.active, activePool := currentPool, status := EmergencyProxyOk,
          failureStreak := 0);
      if state.failedNodes > 0 && state.failureWindowStart > 0
          && now - state.failureWindowStart >= Seconds(policy.failureWindow) {
        state := state.(failedNodes := 0, failureWindowStart := 0);
      }
      return state, Plain(Keep, EmergencyActiveHealthy);
    }
    var streak := previous.failureStreak + 1;
    if currentPool != Emergency || observation.active == "" || observation.active == DIRECT {
      streak := policy.failureLimit;
    }
    state := previous.(active := observation.active, activePool := currentPool,
                       status := EmergencyProxyDegraded, failureStreak := streak);
    if streak < policy.failureLimit || now < state.nextSwitchAttempt {
      return state, Plain(Keep, EmergencyThresholdPending);
    }
    state, decision := Replace(rating, state, observation, policy, now, true, currentPool == Emergency
        && observation.active != "");
  }

  /** The part both degraded branches share: cool the failed node down, then a batch, a candidate or exhaustion. */
  method Replace(rating: Rating, previous: State, observation: Observation, policy: Policy, now: int, emergency: bool,
          counts: bool)
    returns (state: State, decision: Decision)
    ensures Outcome(state, decision) == Replacement(rating, previous, observation, policy, now, emergency, counts)
  {
    hide Candidates, CoolPool;
    var pool, batch, found, none := NoPool, FailureBatch, ActiveFailed, NoWorkingCandidate;
    if emergency {
      pool, batch, found, none := Emergency, EmergencyFailureBatch, EmergencySelect, EmergencyNoCandidate;
    }
    state := previous;
    if counts {
      var start := state.failureWindowStart;
      if start == 0 {
        start := now;
      }
      state := state.(cooldowns := state.cooldowns[observation.active := now + Seconds(policy.cooldown)],
                      failedNodes := state.failedNodes + 1, failureWindowStart := start);
      if policy.poolFailureLimit > 0 && state.failedNodes >= policy.poolFailureLimit {
        state, decision := BeginRequalification(state, observation, policy, now, batch, pool);
        return;
      }
    }
    var all := CollectCandidates(rating, observation.nodes, pool, state.cooldowns, observation.active);
    if |all| > 0 {
      return state, Named(Select, all[0], found);
    }
    state := state.(nextSwitchAttempt := now + Seconds(policy.retryAfter));
    if now >= state.nextPoolRefresh {
      if policy.suspendOnExhaustion {
        state, decision := BeginRequalification(state, observation, policy, now, none, pool);
        return;
      }
      state := state.(nextPoolRefresh := now + Seconds(policy.poolRefreshCooldown));
      return state, Decision(Refresh, "", pool, none);
    }
    return state, Plain(Keep, none);
  }

  method BeginRequalification(previous: State, observation: Observation, policy: Policy, now: int, reason: Reason,
          pool: Pool)
    returns (state: State, decision: Decision)
    ensures Outcome(state, decision) == Requalification(previous, observation, policy, now, reason, pool)
  {
    var nodes, cooldowns := observation.nodes, previous.cooldowns;
    for i := 0 to |nodes|
      invariant cooldowns == CoolPool(previous.cooldowns, nodes[..i], pool, now + Seconds(policy.cooldown))
    {
      assert nodes[..i + 1][..i] == nodes[..i];
      if pool == NoPool || nodes[i].pool == pool {
        cooldowns := cooldowns[nodes[i].name := now + Seconds(policy.cooldown)];
      }
    }
    assert nodes[..|nodes|] == nodes;
    state := previous.(cooldowns := cooldowns, status := ServersUnavailable, qualificationSince := now,
                       nextPoolRefresh := now + Seconds(policy.qualificationRetry));
    return state, Decision(Requalify, "", pool, reason);
  }
}
