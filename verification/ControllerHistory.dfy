/** Every decision of the failover controller, told from what it observed and decided before. */
module ControllerHistory {
  import opened Wrappers
  import opened Rank
  import opened Seqs
  import opened Controller
  import opened ControllerChoice
  import opened ControllerRuns

  // ----- Kinds of cycles

  /** Online, past any outage and its grace period. */
  predicate Live(m: Moment) {
    m.observation.wan && !m.before.status.InternetDown? && m.before.recoveryGraceUntil <= m.At()
  }

  function ModeOf(m: Moment): Mode {
    EffectiveMode(m.observation.control, m.At())
  }

  predicate SwitchedOff(m: Moment) {
    Live(m) && !m.observation.control.enabled
  }

  predicate Awaits(m: Moment) {
    Live(m) && m.observation.control.enabled && m.before.qualificationSince > 0
  }

  /** The controller looks after the active node by itself. */
  predicate Tends(m: Moment) {
    Live(m) && m.observation.control.enabled && m.before.qualificationSince <= 0 && !ModeOf(m).Manual?
  }

  /** The mode has a node to be active: any in automatic mode, one of the emergency pool in emergency mode. */
  predicate InUse(m: Moment) {
    && m.observation.active != "" && m.observation.active != DIRECT
    && (ModeOf(m).EmergencyOnly? ==> CurrentPool(m.observation).Emergency?)
  }

  predicate Works(m: Moment) {
    Tends(m) && m.observation.activeOk
    && if ModeOf(m).EmergencyOnly? then CurrentPool(m.observation).Emergency?
       else m.observation.active != "" && m.observation.active != DIRECT
  }

  predicate Fails(m: Moment) {
    Tends(m) && !Works(m)
  }

  /** A failure of the active node counts, as it has a name. */
  predicate Counts(m: Moment) {
    m.observation.active != "" && (ModeOf(m).EmergencyOnly? ==> CurrentPool(m.observation).Emergency?)
  }

  predicate IsLeaving(r: Reason) {
    || r.FailureBatch? || r.ActiveFailed? || r.NoWorkingCandidate?
    || r.EmergencyFailureBatch? || r.EmergencySelect? || r.EmergencyNoCandidate?
  }

  predicate IsPatient(r: Reason) {
    r.FailureThresholdPending? || r.EmergencyThresholdPending?
  }

  predicate IsFull(r: Reason) {
    r.FailureBatch? || r.EmergencyFailureBatch?
  }

  predicate IsFound(r: Reason) {
    r.ActiveFailed? || r.EmergencySelect?
  }

  predicate IsExhausted(r: Reason) {
    r.NoWorkingCandidate? || r.EmergencyNoCandidate?
  }

  /** The fields the decisions depend on, apart from cooldowns and rank and failback checks. */
  datatype Books = Books(streak: int, failed: int, window: int, pending: int, attempt: int, refresh: int, grace: int)

  function BooksOf(s: State): Books {
    Books(s.failureStreak, s.failedNodes, s.failureWindowStart, s.qualificationSince, s.nextSwitchAttempt,
          s.nextPoolRefresh, s.recoveryGraceUntil)
  }

  // ----- One cycle

  /** The answer to a failure: a full batch asks for servers to be tested, otherwise a replacement is selected, and
      without one the pool is refreshed or tested once the time for it has come. */
  predicate AnswersFailure(policy: Policy, now: int, refresh: int, emergency: bool, full: bool, some: bool,
          d: Decision) {
    var pool := if emergency then Emergency else NoPool;
    var exhausted := if emergency then EmergencyNoCandidate else NoWorkingCandidate;
    if full then d == Decision(Requalify, "", pool, if emergency then EmergencyFailureBatch else FailureBatch)
    else if some then d.action.Select? && d.reason == if emergency then EmergencySelect else ActiveFailed
    else if now < refresh then d == Plain(Keep, exhausted)
    else d == Decision(if policy.suspendOnExhaustion then Requalify else Refresh, "", pool, exhausted)
  }

  /** What leaving the active node does, by what it finds. */
  lemma {:induction false} ReplacementEffects(rating: Rating, s: State, o: Observation, policy: Policy, now: int,
          emergency: bool, counts: bool)
    requires (counts ==> o.active != "") && !s.status.InternetDown?
    ensures var out := Replacement(rating, s, o, policy, now, emergency, counts);
            var failed := if counts then s.failedNodes + 1 else s.failedNodes;
            var window := if counts && s.failureWindowStart == 0 then now else s.failureWindowStart;
            var full := counts && policy.poolFailureLimit > 0 && failed >= policy.poolFailureLimit;
            var some := HasReplacement(o, emergency, s.cooldowns);
            var base := BooksOf(s).(failed := failed, window := window);
            && IsLeaving(out.decision.reason) && !out.state.status.InternetDown?
            && (IsFull(out.decision.reason) <==> full)
            && (IsFound(out.decision.reason) <==> !full && some)
            && (IsExhausted(out.decision.reason) <==> !full && !some)
            && AnswersFailure(policy, now, s.nextPoolRefresh, emergency, full, some, out.decision)
            && BooksOf(out.state) ==
               (if out.decision.action.Requalify? then
                  base.(pending := now, refresh := now + Seconds(policy.qualificationRetry),
                        attempt := if full then s.nextSwitchAttempt else now + Seconds(policy.retryAfter))
                else if !full && !some then
                  base.(attempt := now + Seconds(policy.retryAfter),
                        refresh := if out.decision.action.Refresh? then now + Seconds(policy.poolRefreshCooldown)
                                   else s.nextPoolRefresh)
                else base)
  {
    CandidatesReplace(rating, s, o, policy, now, emergency, counts);
    hide CoolPool, Seconds, Candidates, HasReplacement;
  }

  ghost predicate HasReplacement(o: Observation, emergency: bool, cooldowns: map<string, int>) {
    exists n <- o.nodes :: n.alive && n.name != o.active && (emergency ==> n.pool.Emergency?) && n.name !in cooldowns
  }

  lemma {:induction false} CandidatesReplace(rating: Rating, s: State, o: Observation, policy: Policy, now: int,
          emergency: bool, counts: bool)
    ensures var t := if counts then CoolDown(s, o, policy, now) else s;
            Candidates(rating, o.nodes, if emergency then Emergency else NoPool, t.cooldowns, o.active) != [] <==>
            HasReplacement(o, emergency, s.cooldowns)
  {
    var t, pool := if counts then CoolDown(s, o, policy, now) else s, if emergency then Emergency else NoPool;
    var c := Candidates(rating, o.nodes, pool, t.cooldowns, o.active);
    CandidatesMembers(rating, o.nodes, pool, t.cooldowns, o.active);
    hide Candidates;
    assert forall n :: n in c <==>
      n in o.nodes && n.alive && n.name != o.active && (emergency ==> n.pool.Emergency?) && n.name !in s.cooldowns;
    if c != [] {
      assert c[0] in c;
    }
  }

  /** The batch window is over. */
  function Expired(b: Books, policy: Policy, now: int): Books {
    if b.failed > 0 && b.window > 0 && now - b.window >= Seconds(policy.failureWindow) then b.(failed := 0, window := 0)
    else b
  }

  predicate IsSteady(r: Reason) {
    || r.HigherRankStable? || r.HigherPriorityStable? || r.FailbackProbe? || r.RefreshPrimaryBeforeFailback?
    || r.AwaitingFreshPrimary? || r.ActiveHealthy? || r.EmergencyActiveHealthy?
  }

  lemma {:induction false} HealthyEffects(rating: Rating, s: State, o: Observation, policy: Policy, now: int)
    ensures var out := Healthy(rating, s, o, policy, now);
            && IsSteady(out.decision.reason) && !out.state.status.InternetDown?
            && BooksOf(out.state) ==
               (if out.decision.reason.HigherRankStable? then BooksOf(s) else Expired(BooksOf(s), policy, now))
               .(streak := 0, refresh := if out.decision.action.Refresh? then now + Seconds(policy.poolRefreshCooldown)
                                         else s.nextPoolRefresh)
  {
    hide Candidates, Outranks, Seconds;
  }

  /** The failures in a row, this one included; where no node is in use nothing is waited for. */
  function StreakNow(policy: Policy, m: Moment, streak: int): int {
    if InUse(m) then streak + 1 else policy.failureLimit
  }

  predicate Patient(policy: Policy, m: Moment, b: Books) {
    StreakNow(policy, m, b.streak) < policy.failureLimit || m.At() < b.attempt
  }

  /** The books after a cycle in which the active node fails. */
  function FailureEntry(policy: Policy, m: Moment, b: Books): Books {
    var d := m.decision;
    var t := b.(streak := StreakNow(policy, m, b.streak));
    if IsPatient(d.reason) then t
    else
      var u := if Counts(m) then t.(failed := b.failed + 1, window := if b.window == 0 then m.At() else b.window)
          else t;
      var v := if IsExhausted(d.reason) then u.(attempt := m.At() + Seconds(policy.retryAfter)) else u;
      if d.action.Requalify? then v.(pending := m.At(), refresh := m.At() + Seconds(policy.qualificationRetry))
      else if d.action.Refresh? then v.(refresh := m.At() + Seconds(policy.poolRefreshCooldown))
      else v
  }

  /** What a failing cycle answers. */
  ghost predicate FailureAnswer(policy: Policy, m: Moment, b: Books) {
    var d := m.decision;
    var full := Counts(m) && policy.poolFailureLimit > 0 && b.failed + 1 >= policy.poolFailureLimit;
    var some := HasReplacement(m.observation, ModeOf(m).EmergencyOnly?, Purge(m.before.cooldowns, m.At()));
    if Patient(policy, m, b) then
      d == Plain(Keep, if ModeOf(m).EmergencyOnly? then EmergencyThresholdPending else FailureThresholdPending)
    else AnswersFailure(policy, m.At(), b.refresh, ModeOf(m).EmergencyOnly?, full, some, d)
  }

  /** The state in which a failure in automatic mode is dealt with. */
  function AutoFailing(policy: Policy, m: Moment): State {
    var a, o := Arrived(m.before, m.observation, m.wall), m.observation;
    a.(active := o.active, activePool := CurrentPool(o), status := ProxyDegraded, rankTarget := "", rankStreak := 0,
       failureStreak := if o.active == "" || o.active == DIRECT then policy.failureLimit else a.failureStreak + 1)
  }

  lemma {:induction false} AutoFailure(rating: Rating, policy: Policy, m: Moment)
    requires Ran(rating, policy, m) && Fails(m) && ModeOf(m).Auto?
    ensures var t := AutoFailing(policy, m);
            Outcome(m.after, m.decision) ==
            if t.failureStreak < policy.failureLimit || m.At() < t.nextSwitchAttempt
            then Outcome(t, Plain(Keep, FailureThresholdPending))
            else Replacement(rating, t, m.observation, policy, m.At(), false, m.observation.active != "")
  {
    hide Replacement, Healthy, Seconds, EmergencyStep, Qualifying, Steered;
  }

  lemma {:induction false} AutoFails(rating: Rating, policy: Policy, m: Moment)
    requires Ran(rating, policy, m) && Fails(m) && ModeOf(m).Auto?
    ensures FailureAnswer(policy, m, BooksOf(m.before)) && !m.after.status.InternetDown?
    ensures BooksOf(m.after) == FailureEntry(policy, m, BooksOf(m.before))
  {
    AutoFailure(rating, policy, m);
    hide Replacement, Ran, HasReplacement, Seconds;
    ReplacementEffects(rating, AutoFailing(policy, m), m.observation, policy, m.At(), false,
        m.observation.active != "");
  }

  lemma {:induction false} EmergencyFails(rating: Rating, policy: Policy, m: Moment)
    requires Ran(rating, policy, m) && Fails(m) && ModeOf(m).EmergencyOnly?
    ensures FailureAnswer(policy, m, BooksOf(m.before)) && !m.after.status.InternetDown?
    ensures BooksOf(m.after) == FailureEntry(policy, m, BooksOf(m.before))
  {
    hide Replacement, HasReplacement, Seconds;
    var a, o, now := Arrived(m.before, m.observation, m.wall), m.observation, m.At();
    ReplacementEffects(rating, EmergencyFailing(a, o, policy), o, policy, now, true,
      CurrentPool(o) == Emergency && o.active != "");
  }

  lemma {:induction false} WorkingCycle(rating: Rating, policy: Policy, m: Moment)
    requires Ran(rating, policy, m) && Works(m)
    ensures IsSteady(m.decision.reason) && !m.after.status.InternetDown?
    ensures BooksOf(m.after) ==
            (if m.decision.reason.HigherRankStable? then BooksOf(m.before)
             else Expired(BooksOf(m.before), policy, m.At()))
            .(streak := 0, refresh := if m.decision.action.Refresh? then m.At() + Seconds(policy.poolRefreshCooldown)
                                      else m.before.nextPoolRefresh)
  {
    hide Healthy, Replacement, Seconds;
    var a, o, now := Arrived(m.before, m.observation, m.wall), m.observation, m.At();
    var t := (if a.active != o.active then a.(rankTarget := "", rankStreak := 0) else a)
             .(active := o.active, activePool := CurrentPool(o));
    HealthyEffects(rating, t, o, policy, now);
  }

  /** While servers are tested again. */
  lemma {:induction false} AwaitingCycle(rating: Rating, policy: Policy, m: Moment)
    requires Ran(rating, policy, m) && Awaits(m)
    ensures var b, d := BooksOf(m.before), m.decision;
            var some := exists n <- m.observation.nodes ::
              n.alive && n.name != "" && (ModeOf(m).EmergencyOnly? ==> n.pool.Emergency?)
                  && n.lastTestedAt >= b.pending;
            && !m.after.status.InternetDown?
            && (d.reason.QualifiedServersAvailable? <==> some)
            && (d.reason.RetryServerQualification? <==> !some && m.At() >= b.refresh)
            && (d.reason.AwaitingQualifiedServers? <==> !some && m.At() < b.refresh)
            && (d.action.Resume? <==> some) && (d.action.Requalify? <==> !some && m.At() >= b.refresh)
            && (d.action.Suspend? <==> !some && m.At() < b.refresh)
            && (d.action.Requalify? ==> d.target == "" && d.pool == QualificationPool(ModeOf(m)))
            && (d.action.Suspend? ==> d == Plain(Suspend, AwaitingQualifiedServers))
            && BooksOf(m.after) ==
               if d.action.Resume? then b.(failed := 0, window := 0, pending := 0)
               else if d.action.Requalify? then
                 b.(pending := m.At(), refresh := m.At() + Seconds(policy.qualificationRetry))
               else b
  {
    hide Seconds;
    var pool := QualificationPool(ModeOf(m));
    var c := Candidates(rating, m.observation.nodes, pool, map[], "");
    var kept := TestedSince(rating, m.observation.nodes, ModeOf(m), m.before.qualificationSince);
    CandidatesMembers(rating, m.observation.nodes, pool, map[], "");
    FilterMembers(Tested(m.before.qualificationSince), c);
    hide Candidates, Filter;
    if kept != [] {
      assert kept[0] in kept;
    }
    assert forall n :: n in kept <==>
      n in m.observation.nodes && n.alive && n.name != "" && (ModeOf(m).EmergencyOnly? ==> n.pool.Emergency?)
      && n.lastTestedAt >= m.before.qualificationSince;
  }

  predicate Steers(m: Moment) {
    Live(m) && m.observation.control.enabled && m.before.qualificationSince <= 0 && ModeOf(m).Manual?
  }

  /** Under manual control: the chosen node is missing or dead, not in use, in use and working, or failing. */
  lemma {:induction false} SteeredCycle(rating: Rating, policy: Policy, m: Moment)
    requires Ran(rating, policy, m) && Steers(m)
    ensures var b, d, o := BooksOf(m.before), m.decision, m.observation;
            var target := NodeByName(o.nodes, o.control.manualNode);
            && !m.after.status.InternetDown?
            && d.reason ==
               (if target.None? || !target.value.alive then ManualTargetMissing
                else if o.active != target.value.name then ManualControl
                else if o.activeOk then ManualHealthy else ManualDegraded)
            && (d.action.Select? <==> d.reason.ManualControl?) && (d.action.Keep? <==> !d.reason.ManualControl?)
            && BooksOf(m.after) ==
               b.(streak := if d.reason.ManualControl? then b.streak
                            else if d.reason.ManualHealthy? then 0 else b.streak + 1)
  {
    hide NodeByName, Healthy, Degraded, EmergencyStep, Qualifying;
  }

  /** Offline, back online, within the grace period, and switched off. */
  lemma {:induction false} IdleCycle(rating: Rating, policy: Policy, m: Moment)
    requires Ran(rating, policy, m) && (!Live(m) || SwitchedOff(m))
    ensures var b, d, o := BooksOf(m.before), m.decision, m.observation;
            && (m.after.status.InternetDown? <==> !o.wan)
            && d ==
               (if !o.wan then Plain(Freeze, DirectEgressUnreachable)
                else if m.before.status.InternetDown? then Plain(Keep, InternetRestored)
                else if m.At() < b.grace then Plain(Keep, InRecoveryGrace)
                else if o.active != DIRECT then Decision(Select, DIRECT, NoPool, ServiceDisabled)
                else Plain(Keep, ServiceDisabled))
            && BooksOf(m.after) ==
               if d.reason.DirectEgressUnreachable? then b.(streak := 0)
               else if d.reason.InternetRestored? then
                 b.(streak := 0, grace := m.At() + Seconds(policy.recoveryGrace))
               else if d.reason.ServiceDisabled? then b.(streak := 0, failed := 0, window := 0, pending := 0)
               else b
  {
    hide Healthy, Degraded, EmergencyStep, Qualifying, Steered, Seconds;
  }

  // ----- Whole runs

  /** The books after a cycle, told from the books before it, what it observed and what it decided. */
  function Entry(policy: Policy, m: Moment, b: Books): Books {
    var d := m.decision;
    if d.reason.DirectEgressUnreachable? then b.(streak := 0)
    else if d.reason.InternetRestored? then b.(streak := 0, grace := m.At() + Seconds(policy.recoveryGrace))
    else if d.reason.ServiceDisabled? then b.(streak := 0, failed := 0, window := 0, pending := 0)
    else if d.reason.QualifiedServersAvailable? then b.(failed := 0, window := 0, pending := 0)
    else if d.reason.RetryServerQualification? then
      b.(pending := m.At(), refresh := m.At() + Seconds(policy.qualificationRetry))
    else if d.reason.ManualTargetMissing? || d.reason.ManualDegraded? then b.(streak := b.streak + 1)
    else if d.reason.ManualHealthy? then b.(streak := 0)
    else if IsSteady(d.reason) then
      (if d.reason.HigherRankStable? then b else Expired(b, policy, m.At()))
      .(streak := 0, refresh := if d.action.Refresh? then m.At() + Seconds(policy.poolRefreshCooldown) else b.refresh)
    else if IsPatient(d.reason) || IsLeaving(d.reason) then FailureEntry(policy, m, b)
    else b
  }

  /** The books before cycle `j`; the runtime may have cleared the failures in a row. */
  function Ledger(policy: Policy, run: seq<Moment>, j: nat): Books
    requires j < |run|
  {
    if j == 0 then Books(0, 0, 0, 0, 0, 0, 0)
    else
      var b := Entry(policy, run[j - 1], Ledger(policy, run, j - 1));
      if run[j].before == run[j - 1].after then b else b.(streak := 0)
  }

  /** What a cycle answers, told from the books, the observation and whether the last cycle was offline. */
  ghost predicate AnswersBy(policy: Policy, m: Moment, b: Books, down: bool) {
    var o, d, at := m.observation, m.decision, m.At();
    if !o.wan then d == Plain(Freeze, DirectEgressUnreachable)
    else if down then d == Plain(Keep, InternetRestored)
    else if at < b.grace then d == Plain(Keep, InRecoveryGrace)
    else if !o.control.enabled then
      d == if o.active != DIRECT then Decision(Select, DIRECT, NoPool, ServiceDisabled)
          else Plain(Keep, ServiceDisabled)
    else if b.pending > 0 then
      if exists n <- o.nodes :: n.alive && n.name != "" && (ModeOf(m).EmergencyOnly? ==> n.pool.Emergency?)
                                && n.lastTestedAt >= b.pending
      then d.action.Resume? && d.reason.QualifiedServersAvailable?
      else if at >= b.refresh then
        d == Decision(Requalify, "", if ModeOf(m).EmergencyOnly? then Emergency else NoPool, RetryServerQualification)
      else d == Plain(Suspend, AwaitingQualifiedServers)
    else if ModeOf(m).Manual? then
      var target := NodeByName(o.nodes, o.control.manualNode);
      d.reason == (if target.None? || !target.value.alive then ManualTargetMissing
                   else if o.active != target.value.name then ManualControl
                   else if o.activeOk then ManualHealthy else ManualDegraded)
      && (if d.reason.ManualControl? then d.action.Select? else d.action.Keep?)
    else if o.activeOk && (if ModeOf(m).EmergencyOnly? then CurrentPool(o).Emergency?
                           else o.active != "" && o.active != DIRECT)
    then IsSteady(d.reason)
    else FailureAnswer(policy, m, b)
  }

  /** One cycle keeps the books and answers by them. */
  lemma {:induction false} CycleByBooks(rating: Rating, policy: Policy, m: Moment)
    requires Ran(rating, policy, m)
    ensures AnswersBy(policy, m, BooksOf(m.before), m.before.status.InternetDown?)
    ensures BooksOf(m.after) == Entry(policy, m, BooksOf(m.before))
    ensures m.after.status.InternetDown? <==> !m.observation.wan
  {
    hide Ran, Now, FailureAnswer, FailureEntry, Expired, NodeByName, Seconds, ModeOf;
    if !Live(m) || SwitchedOff(m) {
      IdleCycle(rating, policy, m);
    } else if Awaits(m) {
      AwaitingCycle(rating, policy, m);
    } else if Steers(m) {
      SteeredCycle(rating, policy, m);
    } else if Works(m) {
      WorkingCycle(rating, policy, m);
    } else if ModeOf(m).Auto? {
      AutoFails(rating, policy, m);
      FailureReasons(policy, m, BooksOf(m.before));
    } else {
      EmergencyFails(rating, policy, m);
      FailureReasons(policy, m, BooksOf(m.before));
    }
  }

  lemma {:induction false} FailureReasons(policy: Policy, m: Moment, b: Books)
    requires FailureAnswer(policy, m, b)
    ensures IsPatient(m.decision.reason) || IsLeaving(m.decision.reason)
  {
    hide HasReplacement, Patient;
  }

  /** Over every run from the initial state the stored counters and times are those of the ledger, and every decision is
      the one the ledger and the observation call for. */
  lemma {:induction false} DecisionsFollowLedger(rating: Rating, policy: Policy, run: seq<Moment>, j: nat)
    requires IsRun(rating, policy, run) && j < |run| && run[0].before == INITIAL
    ensures BooksOf(run[j].before) == Ledger(policy, run, j)
    ensures AnswersBy(policy, run[j], Ledger(policy, run, j), j > 0 && !run[j - 1].observation.wan)
    decreases j
  {
    hide Ran, Now, AnswersBy, Entry;
    CycleByBooks(rating, policy, run[j]);
    if j > 0 {
      DecisionsFollowLedger(rating, policy, run, j - 1);
      assert HandedOver(run, j - 1);
      CycleByBooks(rating, policy, run[j - 1]);
    }
  }

  /** The limits of the two policies, and their periods in seconds. */
  lemma {:induction false} PolicyTimes(policy: Policy)
    requires policy == DEFAULT_POLICY || policy == MANAGED_POLICY
    ensures policy.failureLimit == 2 && policy.recoveryStableChecks == 2
    ensures Seconds(policy.retryAfter) == 30 && Seconds(policy.cooldown) == 900
    ensures Seconds(policy.recoveryInterval) == 20 && Seconds(policy.recoveryGrace) == 10
    ensures Seconds(policy.poolRefreshCooldown) == 900 && Seconds(policy.failureWindow) == 300
    ensures Seconds(policy.qualificationRetry) == 300
    ensures if policy == MANAGED_POLICY
            then policy.poolFailureLimit == 3 && policy.suspendOnExhaustion && Seconds(policy.rankUpgradeInterval) == 20
            else policy.poolFailureLimit == 0 && !policy.suspendOnExhaustion && policy.rankUpgradeInterval == 0
  {
  }
}
