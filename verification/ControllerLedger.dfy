/** The cooldowns, the rank counters and the reported state of the failover controller over whole runs. */
module ControllerLedger {
  import opened Wrappers
  import opened Rank
  import opened Controller
  import opened ControllerChoice
  import opened ControllerRuns
  import opened ControllerLadders
  import opened ControllerHistory

  // ----- Cooldowns

  function Cooled(cooldowns: map<string, int>, names: set<string>, until: int): map<string, int> {
    map name | name in cooldowns.Keys + names :: if name in names then until else cooldowns[name]
  }

  /** The names of the nodes of a pool, or of all nodes. */
  function NamesIn(nodes: seq<Node>, pool: Pool): set<string> {
    set n | n in nodes && (pool == NoPool || n.pool == pool) :: n.name
  }

  lemma {:induction false} NamesStep(front: seq<Node>, n: Node, pool: Pool)
    ensures NamesIn(front + [n], pool) ==
            NamesIn(front, pool) + if pool == NoPool || n.pool == pool then {n.name} else {}
  {
  }

  lemma {:induction false} CoolOne(cooldowns: map<string, int>, names: set<string>, name: string, until: int)
    ensures Cooled(cooldowns, names + {name}, until) == Cooled(cooldowns, names, until)[name := until]
    ensures Cooled(cooldowns, {}, until) == cooldowns
  {
  }

  lemma {:induction false} CoolPoolIs(cooldowns: map<string, int>, nodes: seq<Node>, pool: Pool, until: int)
    ensures CoolPool(cooldowns, nodes, pool, until) == Cooled(cooldowns, NamesIn(nodes, pool), until)
  {
    hide Cooled, NamesIn;
    if nodes == [] {
      assert NamesIn(nodes, pool) == {} by {
        NoNames(nodes, pool);
      }
      CoolOne(cooldowns, {}, "", until);
    } else {
      var front, n := nodes[..|nodes| - 1], nodes[|nodes| - 1];
      assert nodes == front + [n];
      CoolPoolIs(cooldowns, front, pool, until);
      NamesStep(front, n, pool);
      CoolOne(cooldowns, NamesIn(front, pool), n.name, until);
      assert NamesIn(front, pool) + {} == NamesIn(front, pool);
    }
  }

  lemma {:induction false} NoNames(nodes: seq<Node>, pool: Pool)
    requires nodes == []
    ensures NamesIn(nodes, pool) == {}
  {
  }

  /** The names a request cools down: those of the pool of the mode. */
  function PoolNames(m: Moment): set<string> {
    NamesIn(m.observation.nodes, if ModeOf(m).EmergencyOnly? then Emergency else NoPool)
  }

  /** The cooldowns after a cycle: expired ones end, a failing node cools down when it is left, with it the whole pool
      when nobody is left or the batch is full, and all of them end when servers are resumed. */
  function CooldownsAfter(policy: Policy, m: Moment, c: map<string, int>): map<string, int> {
    var left, until := Purge(c, m.At()), m.At() + Seconds(policy.cooldown);
    if m.decision.action.Resume? then map[]
    else if !IsLeaving(m.decision.reason) then left
    else
      var cooling := if Counts(m) then left[m.observation.active := until] else left;
      if m.decision.action.Requalify? then Cooled(cooling, PoolNames(m), until) else cooling
  }

  lemma {:induction false} ReplacementCooldowns(rating: Rating, s: State, o: Observation, policy: Policy, now: int,
          emergency: bool, counts: bool)
    ensures var out := Replacement(rating, s, o, policy, now, emergency, counts);
            var until := now + Seconds(policy.cooldown);
            var cooling := if counts then s.cooldowns[o.active := until] else s.cooldowns;
            && IsLeaving(out.decision.reason) && !out.decision.action.Resume?
            && out.state.cooldowns ==
               if out.decision.action.Requalify? then
                 Cooled(cooling, NamesIn(o.nodes, if emergency then Emergency else NoPool), until)
               else cooling
  {
    hide Candidates, Cooled, CoolPool, Seconds, NamesIn;
    var cooling := if counts then s.cooldowns[o.active := now + Seconds(policy.cooldown)] else s.cooldowns;
    CoolPoolIs(cooling, o.nodes, if emergency then Emergency else NoPool, now + Seconds(policy.cooldown));
  }

  lemma {:induction false} AutoCooldowns(rating: Rating, policy: Policy, m: Moment)
    requires Ran(rating, policy, m) && Tends(m) && ModeOf(m).Auto?
    ensures m.after.cooldowns == CooldownsAfter(policy, m, m.before.cooldowns)
  {
    hide Candidates, Outranks, Replacement, Healthy, Cooled, Seconds;
    var a, o, now := Arrived(m.before, m.observation, m.wall), m.observation, m.At();
    var t := (if a.active != o.active then a.(rankTarget := "", rankStreak := 0) else a)
             .(active := o.active, activePool := CurrentPool(o));
    HealthyKeepsCooldowns(rating, t, o, policy, now);
    HealthyEffects(rating, t, o, policy, now);
    var u := t.(status := ProxyDegraded, rankTarget := "", rankStreak := 0,
                failureStreak := if o.active == "" || o.active == DIRECT then policy.failureLimit
                    else t.failureStreak + 1);
    ReplacementCooldowns(rating, u, o, policy, now, false, o.active != "");
    HealthyNeverResumes(rating, t, o, policy, now);
  }

  lemma {:induction false} HealthyNeverResumes(rating: Rating, s: State, o: Observation, policy: Policy, now: int)
    ensures !Healthy(rating, s, o, policy, now).decision.action.Resume?
  {
    hide Candidates, Outranks;
  }

  lemma {:induction false} EmergencyCooldowns(rating: Rating, policy: Policy, m: Moment)
    requires Ran(rating, policy, m) && Tends(m) && ModeOf(m).EmergencyOnly?
    ensures m.after.cooldowns == CooldownsAfter(policy, m, m.before.cooldowns)
  {
    hide Replacement, Cooled, Seconds;
    var a, o, now := Arrived(m.before, m.observation, m.wall), m.observation, m.At();
    ReplacementCooldowns(rating, EmergencyFailing(a, o, policy), o, policy, now, true,
      CurrentPool(o) == Emergency && o.active != "");
  }

  lemma {:induction false} CycleCooldowns(rating: Rating, policy: Policy, m: Moment)
    requires Ran(rating, policy, m)
    ensures m.after.cooldowns == CooldownsAfter(policy, m, m.before.cooldowns)
  {
    hide Candidates, Replacement, Healthy, Degraded, EmergencyStep, TestedSince, NodeByName, Cooled, Seconds;
    if Tends(m) {
      if ModeOf(m).Auto? {
        AutoCooldowns(rating, policy, m);
      } else {
        EmergencyCooldowns(rating, policy, m);
      }
    }
  }

  function CoolLedger(policy: Policy, run: seq<Moment>, j: nat): map<string, int>
    requires j <= |run|
  {
    if j == 0 then map[] else CooldownsAfter(policy, run[j - 1], CoolLedger(policy, run, j - 1))
  }

  /** Over every run from the initial state the cooldowns are exactly those its decisions started and time did not
      end. */
  lemma {:induction false} CooldownsFollowLedger(rating: Rating, policy: Policy, run: seq<Moment>, j: nat)
    requires IsRun(rating, policy, run) && j < |run| && run[0].before == INITIAL
    ensures run[j].before.cooldowns == CoolLedger(policy, run, j)
    decreases j
  {
    hide Ran, Now, CooldownsAfter;
    if j > 0 {
      CooldownsFollowLedger(rating, policy, run, j - 1);
      assert HandedOver(run, j - 1);
      CycleCooldowns(rating, policy, run[j - 1]);
    }
  }

  // ----- Rank checks

  /** The node the counters are about, the one that passed a check, how often in a row, and when the next check is
      due. */
  datatype RankBooks = RankBooks(active: string, target: string, streak: int, next: int)

  function RankOf(s: State): RankBooks {
    RankBooks(s.active, s.rankTarget, s.rankStreak, s.nextRankCheck)
  }

  /** A node is asked to be 75 points better than the active one. */
  ghost predicate Leader(rating: Rating, m: Moment, name: string) {
    var current := NodeByName(m.observation.nodes, m.observation.active);
    current.Some? && exists best <- m.observation.nodes ::
      && best.name == name
      && IsBest(rating, best, m.observation.nodes, Primary, Purge(m.before.cooldowns, m.At()), m.observation.active)
      && rating(best.metrics) >= rating(current.value.metrics) + 75.0
  }

  /** The cycle compares ranks. */
  predicate Compares(policy: Policy, m: Moment, r: RankBooks) {
    && Works(m) && ModeOf(m).Auto? && CurrentPool(m.observation).Primary?
    && policy.rankUpgradeInterval > 0 && m.At() >= r.next
  }

  /** The counters as a check sees them: those of another active node do not count. */
  function Seen(m: Moment, r: RankBooks): RankBooks {
    if r.active == m.observation.active then r else RankBooks(m.observation.active, "", 0, r.next)
  }

  /** The rank counters after a cycle: a check that some node passes counts for it, the second one in a row switches and
      starts anew a minute later; a check nobody passes, a failure and another active node start anew. */
  ghost predicate RankEntry(rating: Rating, policy: Policy, m: Moment, r: RankBooks, after: RankBooks) {
    var seen := Seen(m, r);
    var switch := m.decision.action.Select? && m.decision.reason.HigherRankStable?;
    if Compares(policy, m, r) then
      if exists name :: Leader(rating, m, name) then
        exists name :: Leader(rating, m, name)
          && var streak := if seen.target == name then seen.streak + 1 else 1;
          if streak >= 2 then
            switch && m.decision.target == name && after == RankBooks(m.observation.active, "", 0, m.At() + 60)
          else !switch && after == RankBooks(m.observation.active, name, streak,
              m.At() + Seconds(policy.rankUpgradeInterval))
      else !switch && after == RankBooks(m.observation.active, "", 0, m.At() + Seconds(policy.rankUpgradeInterval))
    else
      && !switch
      && after ==
         if Tends(m) && ModeOf(m).Auto? then if Works(m) then seen else RankBooks(m.observation.active, "", 0, r.next)
         else if Tends(m) || SwitchedOff(m) || (Steers(m) && !m.decision.reason.ManualTargetMissing?) then
           r.(active := m.observation.active)
         else r
  }

  lemma {:induction false} ComparingHealthy(rating: Rating, s: State, o: Observation, policy: Policy, now: int)
    requires s.activePool.Primary? && policy.rankUpgradeInterval > 0 && now >= s.nextRankCheck
    ensures var out := Healthy(rating, s, o, policy, now);
            var c := Candidates(rating, o.nodes, Primary, s.cooldowns, o.active);
            var switch := out.decision.action.Select? && out.decision.reason.HigherRankStable?;
            if Outranks(rating, s, o) then
              var streak := if s.rankTarget == c[0].name then s.rankStreak + 1 else 1;
              if streak >= 2 then
                switch && out.decision.target == c[0].name && RankOf(out.state) == RankBooks(s.active, "", 0, now + 60)
              else
                && !switch
                && RankOf(out.state) ==
                   RankBooks(s.active, c[0].name, streak, now + Seconds(policy.rankUpgradeInterval))
            else !switch && RankOf(out.state) == RankBooks(s.active, "", 0, now + Seconds(policy.rankUpgradeInterval))
  {
    hide Candidates, Seconds;
  }

  lemma {:induction false} OtherHealthy(rating: Rating, s: State, o: Observation, policy: Policy, now: int)
    requires !(s.activePool.Primary? && policy.rankUpgradeInterval > 0 && now >= s.nextRankCheck)
    ensures var out := Healthy(rating, s, o, policy, now);
            !out.decision.reason.HigherRankStable? && RankOf(out.state) == RankOf(s)
  {
    hide Candidates, Outranks, Seconds;
  }

  lemma {:induction false} LeaderIsHead(rating: Rating, m: Moment, s: State)
    requires s.cooldowns == Purge(m.before.cooldowns, m.At())
    ensures Outranks(rating, s, m.observation) <==> exists name :: Leader(rating, m, name)
    ensures Outranks(rating, s, m.observation) ==>
              forall name :: Leader(rating, m, name) <==>
                name == Candidates(rating, m.observation.nodes, Primary, s.cooldowns, m.observation.active)[0].name
  {
    HeadIsBest(rating, m.observation.nodes, Primary, s.cooldowns, m.observation.active);
    var c := Candidates(rating, m.observation.nodes, Primary, s.cooldowns, m.observation.active);
    hide Candidates;
    if c != [] {
      assert Outranks(rating, s, m.observation) ==> Leader(rating, m, c[0].name);
    }
    forall name | Leader(rating, m, name)
      ensures Outranks(rating, s, m.observation) && name == c[0].name
    {
      var best :| best in m.observation.nodes && best.name == name
        && IsBest(rating, best, m.observation.nodes, Primary, s.cooldowns, m.observation.active)
        && rating(best.metrics) >= rating(NodeByName(m.observation.nodes, m.observation.active).value.metrics) + 75.0;
      BestIsHead(rating, m.observation.nodes, s.cooldowns, m.observation.active, best);
    }
  }

  lemma {:induction false} WorkingRank(rating: Rating, policy: Policy, m: Moment)
    requires Ran(rating, policy, m) && Works(m) && ModeOf(m).Auto?
    ensures RankEntry(rating, policy, m, RankOf(m.before), RankOf(m.after))
  {
    var a, o, now := Arrived(m.before, m.observation, m.wall), m.observation, m.At();
    var t := (if a.active != o.active then a.(rankTarget := "", rankStreak := 0) else a)
             .(active := o.active, activePool := CurrentPool(o));
    LeaderIsHead(rating, m, t);
    hide Candidates, Healthy, Degraded, Outranks, Leader, Seconds;
    if Compares(policy, m, RankOf(m.before)) {
      ComparingHealthy(rating, t, o, policy, now);
    } else {
      OtherHealthy(rating, t, o, policy, now);
    }
  }

  lemma {:induction false} ReplacementRank(rating: Rating, s: State, o: Observation, policy: Policy, now: int,
          emergency: bool, counts: bool)
    ensures var out := Replacement(rating, s, o, policy, now, emergency, counts);
            RankOf(out.state) == RankOf(s) && !out.decision.reason.HigherRankStable?
  {
    hide Candidates, CoolPool;
  }

  lemma {:induction false} FailingRank(rating: Rating, policy: Policy, m: Moment)
    requires Ran(rating, policy, m) && Fails(m) && ModeOf(m).Auto?
    ensures RankEntry(rating, policy, m, RankOf(m.before), RankOf(m.after))
  {
    AutoFailure(rating, policy, m);
    hide Replacement, Ran, Leader, Seconds;
    ReplacementRank(rating, AutoFailing(policy, m), m.observation, policy, m.At(), false, m.observation.active != "");
  }

  lemma {:induction false} OtherRank(rating: Rating, policy: Policy, m: Moment)
    requires Ran(rating, policy, m) && !(Tends(m) && ModeOf(m).Auto?)
    ensures RankEntry(rating, policy, m, RankOf(m.before), RankOf(m.after))
  {
    hide Candidates, Replacement, Healthy, Degraded, TestedSince, Leader, Seconds;
    var a, o, now := Arrived(m.before, m.observation, m.wall), m.observation, m.At();
    ReplacementRank(rating, EmergencyFailing(a, o, policy), o, policy, now, true,
      CurrentPool(o) == Emergency && o.active != "");
  }

  /** Every cycle, in whatever mode and however its nodes are measured, keeps the rank counters and switches by them. */
  lemma {:induction false} RankFollowsEntries(rating: Rating, policy: Policy, m: Moment)
    requires Ran(rating, policy, m)
    ensures RankEntry(rating, policy, m, RankOf(m.before), RankOf(m.after))
  {
    if Tends(m) && ModeOf(m).Auto? {
      if Works(m) {
        WorkingRank(rating, policy, m);
      } else {
        FailingRank(rating, policy, m);
      }
    } else {
      OtherRank(rating, policy, m);
    }
  }

  // ----- What is reported

  /** The status that goes with a decision; within the grace period and for a manual selection it stays. */
  function StatusFor(d: Decision, before: Status): Status {
    match d.reason
    case DirectEgressUnreachable => InternetDown
    case InternetRestored => RecoveryGrace
    case ServiceDisabled => Disabled
    case QualifiedServersAvailable => QualifiedServersReady
    case RetryServerQualification => ServersUnavailable
    case AwaitingQualifiedServers => ServersUnavailable
    case ManualTargetMissing => ManualTargetUnavailable
    case ManualHealthy => ManualProxyOk
    case ManualDegraded => ManualProxyDegraded
    case EmergencyActiveHealthy => EmergencyProxyOk
    case InRecoveryGrace => before
    case ManualControl => before
    case _ =>
      if d.action.Requalify? then ServersUnavailable
      else if IsSteady(d.reason) then ProxyOk
      else if d.reason.EmergencyThresholdPending? || d.reason.EmergencySelect? || d.reason.EmergencyNoCandidate? then
        EmergencyProxyDegraded
      else ProxyDegraded
  }

  ghost predicate Reported(s: State, out: Outcome) {
    && out.state.status == StatusFor(out.decision, s.status)
    && out.state.lastCycle == s.lastCycle && out.state.mode == s.mode && out.state.wanAvailable == s.wanAvailable
    && out.state.internetDownSince == s.internetDownSince
  }

  lemma {:induction false} HealthyReports(rating: Rating, s: State, o: Observation, policy: Policy, now: int)
    ensures Reported(s, Healthy(rating, s, o, policy, now))
  {
    var u := s.(status := ProxyOk, failureStreak := 0);
    var counted := if RankCheckDue(u, policy, now) then CountRank(rating, u, o, policy, now) else u;
    hide Candidates, Outranks, Failback, StatusFor, Seconds;
    FailbackReports(rating, ExpireWindow(counted, policy, now), o, policy, now);
    HealthyEffects(rating, s, o, policy, now);
    SteadyStatus(Healthy(rating, s, o, policy, now).decision, s.status);
  }

  lemma {:induction false} FailbackReports(rating: Rating, s: State, o: Observation, policy: Policy, now: int)
    requires s.status.ProxyOk?
    ensures Reported(s, Failback(rating, s, o, policy, now))
    ensures Failback(rating, s, o, policy, now).state.status.ProxyOk?
    ensures var d := Failback(rating, s, o, policy, now).decision;
            !d.reason.EmergencyActiveHealthy? && !d.action.Requalify?
  {
    hide Candidates, Seconds, StatusFor;
    SteadyStatus(Failback(rating, s, o, policy, now).decision, s.status);
  }

  lemma {:induction false} SteadyStatus(d: Decision, x: Status)
    ensures IsSteady(d.reason) && !d.reason.EmergencyActiveHealthy? && !d.action.Requalify? ==>
              StatusFor(d, x) == ProxyOk
  {
  }

  lemma {:induction false} ReplacementReports(rating: Rating, s: State, o: Observation, policy: Policy, now: int,
          emergency: bool, counts: bool)
    requires s.status == if emergency then EmergencyProxyDegraded else ProxyDegraded
    ensures Reported(s, Replacement(rating, s, o, policy, now, emergency, counts))
    ensures IsLeaving(Replacement(rating, s, o, policy, now, emergency, counts).decision.reason)
  {
    hide Candidates, CoolPool;
  }

  /** What the statuses of the branches that look after the active node say. */
  lemma {:induction false} TendingStatus(d: Decision, x: Status, y: Status)
    ensures IsSteady(d.reason) || IsLeaving(d.reason) || IsPatient(d.reason) ==> StatusFor(d, x) == StatusFor(d, y)
    ensures d == Plain(Keep, FailureThresholdPending) ==> StatusFor(d, x) == ProxyDegraded
    ensures d == Plain(Keep, EmergencyThresholdPending) ==> StatusFor(d, x) == EmergencyProxyDegraded
    ensures d == Plain(Keep, EmergencyActiveHealthy) ==> StatusFor(d, x) == EmergencyProxyOk
  {
  }

  lemma {:induction false} EmergencyReports(rating: Rating, policy: Policy, m: Moment)
    requires Ran(rating, policy, m) && Tends(m) && ModeOf(m).EmergencyOnly?
    ensures Reported(Arrived(m.before, m.observation, m.wall), Outcome(m.after, m.decision))
  {
    hide Healthy, Degraded, Replacement, StatusFor, Candidates, Qualifying, Steered;
    var a, o, now := Arrived(m.before, m.observation, m.wall), m.observation, m.At();
    var failing := EmergencyFailing(a, o, policy);
    ReplacementReports(rating, failing, o, policy, now, true, CurrentPool(o) == Emergency && o.active != "");
    TendingStatus(m.decision, a.status, failing.status);
  }

  lemma {:induction false} AutoReports(rating: Rating, policy: Policy, m: Moment)
    requires Ran(rating, policy, m) && Tends(m) && ModeOf(m).Auto?
    ensures Reported(Arrived(m.before, m.observation, m.wall), Outcome(m.after, m.decision))
  {
    hide Healthy, Replacement, EmergencyStep, StatusFor, Candidates, Qualifying, Steered;
    var a, o, now := Arrived(m.before, m.observation, m.wall), m.observation, m.At();
    var t := (if a.active != o.active then a.(rankTarget := "", rankStreak := 0) else a)
             .(active := o.active, activePool := CurrentPool(o));
    HealthyReports(rating, t, o, policy, now);
    var u := t.(status := ProxyDegraded, rankTarget := "", rankStreak := 0,
                failureStreak := if o.active == "" || o.active == DIRECT then policy.failureLimit
                    else t.failureStreak + 1);
    ReplacementReports(rating, u, o, policy, now, false, o.active != "");
    HealthyEffects(rating, t, o, policy, now);
    TendingStatus(m.decision, a.status, t.status);
    TendingStatus(m.decision, a.status, u.status);
  }

  /** Every cycle reports its time, its mode, whether the network was there, since when it was not, and a status that
      goes with its decision. */
  lemma {:induction false} CycleReports(rating: Rating, policy: Policy, m: Moment)
    requires Ran(rating, policy, m)
    ensures m.after.lastCycle == m.At() && m.after.mode == ModeOf(m) && m.after.wanAvailable == m.observation.wan
    ensures m.after.status == StatusFor(m.decision, m.before.status)
    ensures m.after.internetDownSince ==
            if !m.observation.wan then if m.before.internetDownSince == 0 then m.At() else m.before.internetDownSince
            else if m.before.status.InternetDown? then 0 else m.before.internetDownSince
  {
    if Tends(m) {
      hide StatusFor, StepState;
      TendingIsUp(m);
      if ModeOf(m).Auto? {
        AutoReports(rating, policy, m);
      } else {
        EmergencyReports(rating, policy, m);
      }
    } else {
      hide Healthy, Degraded, EmergencyStep, TestedSince, NodeByName, Seconds;
    }
  }

  lemma {:induction false} HealthyKeepsPool(rating: Rating, s: State, o: Observation, policy: Policy, now: int)
    ensures Healthy(rating, s, o, policy, now).state.activePool == s.activePool
  {
    hide Candidates, Outranks, Seconds;
  }

  lemma {:induction false} ReplacementKeepsPool(rating: Rating, s: State, o: Observation, policy: Policy, now: int,
          emergency: bool, counts: bool)
    ensures Replacement(rating, s, o, policy, now, emergency, counts).state.activePool == s.activePool
  {
    hide Candidates, CoolPool, Seconds;
  }

  /** The pool on file is that of the node in use where the controller looks after it, that of the chosen node under
      manual control, and none when it is switched off. */
  lemma {:induction false} ActivePoolIs(rating: Rating, policy: Policy, m: Moment)
    requires Ran(rating, policy, m)
    ensures var target := NodeByName(m.observation.nodes, m.observation.control.manualNode);
            m.after.activePool ==
            if Tends(m) then CurrentPool(m.observation)
            else if SwitchedOff(m) then NoPool
            else if Steers(m) && target.Some? && target.value.alive then target.value.pool
            else m.before.activePool
  {
    hide Healthy, Replacement, TestedSince, NodeByName, Seconds;
    var a, o, now := Arrived(m.before, m.observation, m.wall), m.observation, m.At();
    var t := (if a.active != o.active then a.(rankTarget := "", rankStreak := 0) else a)
             .(active := o.active, activePool := CurrentPool(o));
    HealthyKeepsPool(rating, t, o, policy, now);
    var u := t.(status := ProxyDegraded, rankTarget := "", rankStreak := 0,
                failureStreak := if o.active == "" || o.active == DIRECT then policy.failureLimit
                    else t.failureStreak + 1);
    ReplacementKeepsPool(rating, u, o, policy, now, false, o.active != "");
    ReplacementKeepsPool(rating, EmergencyFailing(a, o, policy), o, policy, now, true,
      CurrentPool(o) == Emergency && o.active != "");
  }

  lemma {:induction false} TendingIsUp(m: Moment)
    requires Tends(m)
    ensures m.observation.wan && !m.before.status.InternetDown?
  {
  }

  /** Since when the network is away: the first cycle of the outage, which began with the network there. */
  lemma {:induction false} DownSince(rating: Rating, policy: Policy, run: seq<Moment>, j: nat) returns (i: nat)
    requires IsRun(rating, policy, run) && j < |run| && run[0].before == INITIAL && !run[j].observation.wan
    requires forall k :: 0 <= k <= j ==> run[k].At() != 0
    ensures i <= j && run[j].after.internetDownSince == run[i].At()
    ensures (forall k :: i <= k <= j ==> !run[k].observation.wan) && (i > 0 ==> run[i - 1].observation.wan)
    decreases j
  {
    hide Ran, Now, StatusFor;
    CycleReports(rating, policy, run[j]);
    if j == 0 {
      i := 0;
    } else {
      assert HandedOver(run, j - 1);
      if run[j - 1].observation.wan {
        i := j;
        NotDown(rating, policy, run, j - 1);
      } else {
        i := DownSince(rating, policy, run, j - 1);
      }
    }
  }

  lemma {:induction false} NotDown(rating: Rating, policy: Policy, run: seq<Moment>, j: nat)
    requires IsRun(rating, policy, run) && j < |run| && run[0].before == INITIAL && run[j].observation.wan
    ensures run[j].after.internetDownSince == 0
    decreases j
  {
    hide Ran, Now, StatusFor;
    CycleReports(rating, policy, run[j]);
    if j > 0 {
      assert HandedOver(run, j - 1);
      CycleByBooks(rating, policy, run[j - 1]);
      if run[j - 1].observation.wan {
        NotDown(rating, policy, run, j - 1);
      }
    }
  }
}
