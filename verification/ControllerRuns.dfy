/** What the failover controller guarantees over whole runs. */
module ControllerRuns {
  import opened Rank
  import opened Controller
  import opened ControllerChoice

  /** One stored cycle. `wall` is the clock used when the observation carries no time. */
  datatype Moment = Moment(before: State, observation: Observation, wall: int, after: State, decision: Decision) {
    function At(): int {
      Now(observation, wall)
    }
  }

  ghost predicate Ran(rating: Rating, policy: Policy, m: Moment) {
    StepState(rating, m.before, m.observation, policy, m.wall) == Outcome(m.after, m.decision)
  }

  /** Between two cycles the runtime may clear the failure and rank counters, and nothing else. */
  predicate Handover(a: State, b: State) {
    b == a || b == a.(failureStreak := 0, rankTarget := "", rankStreak := 0)
  }

  ghost predicate IsRun(rating: Rating, policy: Policy, run: seq<Moment>) {
    && (forall i :: 0 <= i < |run| ==> Ran(rating, policy, run[i]))
    && (forall i: nat :: i + 1 < |run| ==> HandedOver(run, i))
  }

  ghost predicate HandedOver(run: seq<Moment>, i: nat)
    requires i + 1 < |run|
  {
    Handover(run[i].after, run[i + 1].before)
  }

  ghost predicate ClockRuns(run: seq<Moment>) {
    forall i, j :: 0 <= i <= j < |run| ==> run[i].At() <= run[j].At()
  }

  // ----- Cooldown safety

  predicate Cooling(cooldowns: map<string, int>, name: string, until: int) {
    name in cooldowns && cooldowns[name] >= until
  }

  lemma {:induction false} CoolPoolKeeps(cooldowns: map<string, int>, nodes: seq<Node>, pool: Pool, t: int,
          name: string, until: int)
    requires Cooling(cooldowns, name, until) && t >= until
    ensures Cooling(CoolPool(cooldowns, nodes, pool, t), name, until)
  {
    if nodes != [] {
      CoolPoolKeeps(cooldowns, nodes[..|nodes| - 1], pool, t, name, until);
    }
  }

  lemma {:induction false} ReplacementKeepsCooling(rating: Rating, s: State, o: Observation, policy: Policy, now: int,
          emergency: bool, counts: bool, name: string, until: int)
    requires Cooling(s.cooldowns, name, until) && now + Seconds(policy.cooldown) >= until
    ensures Cooling(Replacement(rating, s, o, policy, now, emergency, counts).state.cooldowns, name, until)
  {
    var t := if counts then CoolDown(s, o, policy, now) else s;
    assert Cooling(t.cooldowns, name, until);
    CoolPoolKeeps(t.cooldowns, o.nodes, if emergency then Emergency else NoPool, now + Seconds(policy.cooldown), name,
        until);
  }

  /** A healthy step leaves the cooldowns alone. */
  lemma {:induction false} HealthyKeepsCooldowns(rating: Rating, s: State, o: Observation, policy: Policy, now: int)
    ensures Healthy(rating, s, o, policy, now).state.cooldowns == s.cooldowns
  {
    hide Candidates, Outranks;
  }

  lemma {:induction false} AutoKeepsCooling(rating: Rating, s: State, o: Observation, policy: Policy, now: int,
          name: string, until: int)
    requires Cooling(s.cooldowns, name, until) && now + Seconds(policy.cooldown) >= until
    ensures Cooling(AutoStep(rating, s, o, policy, now).state.cooldowns, name, until)
  {
    var t := (if s.active != o.active then s.(rankTarget := "", rankStreak := 0) else s)
             .(active := o.active, activePool := CurrentPool(o));
    if o.active != "" && o.active != DIRECT && o.activeOk {
      HealthyKeepsCooldowns(rating, t, o, policy, now);
    } else {
      var u := t.(status := ProxyDegraded, rankTarget := "", rankStreak := 0,
                  failureStreak := if o.active == "" || o.active == DIRECT then policy.failureLimit
                      else t.failureStreak + 1);
      ReplacementKeepsCooling(rating, u, o, policy, now, false, o.active != "", name, until);
    }
  }

  lemma {:induction false} EmergencyKeepsCooling(rating: Rating, s: State, o: Observation, policy: Policy, now: int,
          name: string, until: int)
    requires Cooling(s.cooldowns, name, until) && now + Seconds(policy.cooldown) >= until
    ensures Cooling(EmergencyStep(rating, s, o, policy, now).state.cooldowns, name, until)
  {
    var pool := CurrentPool(o);
    var t := EmergencyFailing(s, o, policy);
    ReplacementKeepsCooling(rating, t, o, policy, now, true, pool == Emergency && o.active != "", name, until);
  }

  lemma {:induction false} StepKeepsCooling(rating: Rating, policy: Policy, m: Moment, name: string, until: int)
    requires Ran(rating, policy, m)
    requires Cooling(m.before.cooldowns, name, until) && m.At() < until <= m.At() + Seconds(policy.cooldown)
    ensures !m.decision.action.Resume? ==> Cooling(m.after.cooldowns, name, until)
    ensures Automatic(m.decision) ==> m.decision.target != name
  {
    hide Candidates, Replacement, Healthy;
    var s := Arrived(m.before, m.observation, m.wall);
    assert Cooling(s.cooldowns, name, until);
    EmergencyKeepsCooling(rating, s, m.observation, policy, m.At(), name, until);
    AutoKeepsCooling(rating, s, m.observation, policy, m.At(), name, until);
    if Automatic(m.decision) {
      AutomaticSelectsBest(rating, m.before, m.observation, policy, m.wall);
    }
  }

  /** A node that is cooling down after cycle `i` is not selected before its cooldown is over,
      unless servers were requalified and resumed in between. */
  lemma {:induction false} CooldownSafety(rating: Rating, policy: Policy, run: seq<Moment>, i: nat, j: nat,
          name: string)
    requires IsRun(rating, policy, run) && ClockRuns(run) && i < j < |run|
    requires var until := run[i].At() + Seconds(policy.cooldown);
             Cooling(run[i].after.cooldowns, name, until) && run[j].At() < until
    requires forall k :: i < k < j ==> !run[k].decision.action.Resume?
    ensures Automatic(run[j].decision) ==> run[j].decision.target != name
    ensures Cooling(run[j].before.cooldowns, name, run[i].At() + Seconds(policy.cooldown))
    decreases j
  {
    hide Ran, Automatic, Now;
    var until := run[i].At() + Seconds(policy.cooldown);
    assert HandedOver(run, j - 1);
    if i < j - 1 {
      CooldownSafety(rating, policy, run, i, j - 1, name);
      StepKeepsCooling(rating, policy, run[j - 1], name, until);
    }
    StepKeepsCooling(rating, policy, run[j], name, until);
  }

  /** The decision gives the active node up as failed. */
  predicate GivesUp(o: Observation, d: Decision) {
    && o.active != ""
    && (d.reason.ActiveFailed? || d.reason.FailureBatch? || d.reason.NoWorkingCandidate?
        || (CurrentPool(o).Emergency?
            && (d.reason.EmergencySelect? || d.reason.EmergencyFailureBatch? || d.reason.EmergencyNoCandidate?)))
  }

  lemma {:induction false} ReplacementCools(rating: Rating, s: State, o: Observation, policy: Policy, now: int,
          emergency: bool)
    ensures Cooling(Replacement(rating, s, o, policy, now, emergency, true).state.cooldowns, o.active,
            now + Seconds(policy.cooldown))
  {
    hide Candidates;
    var until := now + Seconds(policy.cooldown);
    CoolPoolKeeps(CoolDown(s, o, policy, now).cooldowns, o.nodes, if emergency then Emergency else NoPool, until,
        o.active, until);
  }

  lemma {:induction false} AutoGivesUp(rating: Rating, s: State, o: Observation, policy: Policy, now: int)
    requires GivesUp(o, AutoStep(rating, s, o, policy, now).decision)
    ensures Cooling(AutoStep(rating, s, o, policy, now).state.cooldowns, o.active, now + Seconds(policy.cooldown))
  {
    hide Candidates, Outranks, CoolPool;
    var t := (if s.active != o.active then s.(rankTarget := "", rankStreak := 0) else s)
             .(active := o.active, activePool := CurrentPool(o));
    var u := t.(status := ProxyDegraded, rankTarget := "", rankStreak := 0,
                failureStreak := if o.active == "" || o.active == DIRECT then policy.failureLimit
                    else t.failureStreak + 1);
    ReplacementCools(rating, u, o, policy, now, false);
  }

  lemma {:induction false} EmergencyGivesUp(rating: Rating, s: State, o: Observation, policy: Policy, now: int)
    requires GivesUp(o, EmergencyStep(rating, s, o, policy, now).decision)
    ensures Cooling(EmergencyStep(rating, s, o, policy, now).state.cooldowns, o.active, now + Seconds(policy.cooldown))
  {
    hide Candidates;
    var pool := CurrentPool(o);
    var t := EmergencyFailing(s, o, policy);
    ReplacementCools(rating, t, o, policy, now, true);
  }

  /** Whenever the active node is given up as failed, it is cooled down for the full period. */
  lemma {:induction false} GivenUpNodeCools(rating: Rating, policy: Policy, m: Moment)
    requires Ran(rating, policy, m) && GivesUp(m.observation, m.decision)
    ensures Cooling(m.after.cooldowns, m.observation.active, m.At() + Seconds(policy.cooldown))
  {
    hide Candidates, Replacement, Healthy;
    var s := Arrived(m.before, m.observation, m.wall);
    if s.mode.EmergencyOnly? {
      EmergencyGivesUp(rating, s, m.observation, policy, m.At());
    } else {
      AutoGivesUp(rating, s, m.observation, policy, m.At());
    }
  }

  // ----- Example runs

  /** As many different names as an example needs. */
  function Marks(n: nat): (s: string)
    ensures |s| == n
  {
    seq(n, i => '|')
  }
}
