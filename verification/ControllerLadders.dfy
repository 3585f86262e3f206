/** How often a run can switch by rank while the measurements stay the same. */
module ControllerLadders {
  import opened Wrappers
  import opened Rank
  import opened Seqs
  import opened Controller
  import opened ControllerChoice
  import opened ControllerRuns
  import opened ControllerRank

  // ----- Fixed measurements

  predicate Usable(name: string) {
    name != "" && name != DIRECT
  }

  /** A working primary node in automatic mode, with nothing pending. */
  ghost predicate Calm(m: Moment, nodes: seq<Node>) {
    var o := m.observation;
    && o.nodes == nodes && o.wan && o.control.enabled && EffectiveMode(o.control, m.At()).Auto?
    && o.activeOk && Usable(o.active)
    && CurrentPool(o).Primary?
    && m.before.qualificationSince == 0
  }

  /** The same measurements in every cycle, no failures, and the transport follows the selections. */
  ghost predicate FixedMeasurements(run: seq<Moment>, nodes: seq<Node>) {
    && (forall i :: 0 <= i < |run| ==> Calm(run[i], nodes))
    && (forall i: nat :: i + 1 < |run| ==> Follows(run, i))
  }

  ghost predicate Follows(run: seq<Moment>, i: nat)
    requires i + 1 < |run|
  {
    run[i + 1].observation.active == InUse(run, i + 1)
  }

  /** The node in use after the first `i` cycles. */
  ghost function InUse(run: seq<Moment>, i: nat): string
    requires 0 < i <= |run|
  {
    if run[i - 1].decision.action.Select? then run[i - 1].decision.target else run[i - 1].observation.active
  }

  ghost function Switches(run: seq<Moment>, i: nat): nat
    requires i <= |run|
  {
    if i == 0 then 0 else Switches(run, i - 1) + if IsSwitch(run[i - 1].decision) then 1 else 0
  }

  lemma {:induction false} HealthyPrimarySelects(rating: Rating, s: State, o: Observation, policy: Policy, now: int)
    requires s.activePool.Primary?
    ensures var d := Healthy(rating, s, o, policy, now).decision; d.action.Select? ==> IsSwitch(d)
  {
    hide Candidates, Outranks;
  }

  /** In a calm cycle the only selection is a rank switch, and expired cooldowns are all that is forgotten. */
  lemma {:induction false} CalmCycle(rating: Rating, policy: Policy, m: Moment, nodes: seq<Node>)
    requires Ran(rating, policy, m) && Calm(m, nodes)
    ensures m.decision.action.Select? ==> IsSwitch(m.decision)
    ensures m.after.cooldowns == Purge(m.before.cooldowns, m.At())
  {
    hide Healthy, Degraded, TestedSince, EmergencyStep;
    var s := Arrived(m.before, m.observation, m.wall);
    var t := (if s.active != m.observation.active then s.(rankTarget := "", rankStreak := 0) else s)
             .(active := m.observation.active, activePool := CurrentPool(m.observation));
    HealthyPrimarySelects(rating, t, m.observation, policy, m.At());
    HealthyKeepsCooldowns(rating, t, m.observation, policy, m.At());
  }

  // ----- Ladders

  /** `best` is a working primary node 75 points above the first node called `from`. */
  ghost predicate Above(rating: Rating, nodes: seq<Node>, from: string, best: Node) {
    && best in nodes && best.alive && best.pool.Primary?
    && NodeByName(nodes, from).Some? && rating(best.metrics) >= rating(NodeByName(nodes, from).value.metrics) + 75.0
  }

  /** Step `i` of a path of names: the next name has a node above the current one, and no working primary
      node of a name stepped to so far ranks before it, the current name's apart. */
  ghost predicate Rung(rating: Rating, nodes: seq<Node>, path: seq<string>, i: nat)
    requires i + 1 < |path|
  {
    && path[i] != path[i + 1] && Usable(path[i])
    && exists best <- nodes ::
         && best.name == path[i + 1] && Above(rating, nodes, path[i], best)
         && forall n <- nodes :: n.alive && n.pool.Primary? && n.name in path[1..i + 2] && n.name != path[i] ==>
               !Better(rating, n, best)
  }

  ghost predicate Ladder(rating: Rating, nodes: seq<Node>, path: seq<string>) {
    path != [] && forall i: nat :: i + 1 < |path| ==> Rung(rating, nodes, path, i)
  }

  // ----- From runs to ladders

  /** The name in use at the start, and the target of every switch of the first `i` cycles. */
  ghost function PathOf(run: seq<Moment>, i: nat): (path: seq<string>)
    requires i <= |run| && run != []
    ensures |path| == Switches(run, i) + 1
  {
    if i == 0 then [run[0].observation.active]
    else PathOf(run, i - 1) + if IsSwitch(run[i - 1].decision) then [run[i - 1].decision.target] else []
  }

  lemma {:induction false} LadderExtends(rating: Rating, nodes: seq<Node>, path: seq<string>, next: string)
    requires Ladder(rating, nodes, path) && Rung(rating, nodes, path + [next], |path| - 1)
    ensures Ladder(rating, nodes, path + [next])
  {
    hide Above, Better;
    var longer := path + [next];
    forall i: nat | i + 1 < |longer|
      ensures Rung(rating, nodes, longer, i)
    {
      if i + 1 < |path| {
        assert Rung(rating, nodes, path, i);
        assert longer[1..i + 2] == path[1..i + 2];
      }
    }
  }

  lemma {:induction false} SwitchIsRung(rating: Rating, policy: Policy, m: Moment, nodes: seq<Node>, path: seq<string>)
    requires Ran(rating, policy, m) && Calm(m, nodes) && IsSwitch(m.decision)
    requires path != [] && path[|path| - 1] == m.observation.active
    requires forall name <- path[1..] :: name !in m.before.cooldowns
    ensures Rung(rating, nodes, path + [m.decision.target], |path| - 1)
    ensures m.decision.target !in m.after.cooldowns
  {
    hide Ran, Now, Better;
    RankStep(rating, policy, m);
    CalmCycle(rating, policy, m, nodes);
    var longer, cooldowns := path + [m.decision.target], Purge(m.before.cooldowns, m.At());
    var best :| best in nodes && best.name == m.decision.target
                && IsBest(rating, best, nodes, Primary, cooldowns, m.observation.active)
                && Above(rating, nodes, m.observation.active, best);
    assert longer[1..|longer|] == path[1..] + [m.decision.target];
    assert forall n <- nodes ::
        n.alive && n.pool.Primary? && n.name in longer[1..|longer|] && n.name != m.observation.active ==>
          Eligible(Primary, cooldowns, m.observation.active, n);
  }

  /** A cycle of a run as its path sees it: the end of the path is in use, and no target is cooling down. */
  ghost predicate Followed(run: seq<Moment>, i: nat)
    requires i < |run|
  {
    var path := PathOf(run, i);
    path[|path| - 1] == run[i].observation.active && forall name <- path[1..] :: name !in run[i].before.cooldowns
  }

  /** The path of a run is a ladder. */
  lemma {:induction false} RunsClimb(rating: Rating, policy: Policy, run: seq<Moment>, nodes: seq<Node>, i: nat)
    requires IsRun(rating, policy, run) && FixedMeasurements(run, nodes) && i < |run|
    ensures Ladder(rating, nodes, PathOf(run, i)) && Followed(run, i)
    ensures Ladder(rating, nodes, PathOf(run, i + 1))
  {
    hide Ran, Now, Calm, Rung;
    if i > 0 {
      RunsClimb(rating, policy, run, nodes, i - 1);
      PathStep(rating, policy, run, nodes, i - 1);
    }
    assert Calm(run[i], nodes) && Ran(rating, policy, run[i]);
    if IsSwitch(run[i].decision) {
      SwitchIsRung(rating, policy, run[i], nodes, PathOf(run, i));
      LadderExtends(rating, nodes, PathOf(run, i), run[i].decision.target);
    } else {
      assert PathOf(run, i + 1) == PathOf(run, i);
    }
  }

  lemma {:induction false} PathStep(rating: Rating, policy: Policy, run: seq<Moment>, nodes: seq<Node>, i: nat)
    requires IsRun(rating, policy, run) && FixedMeasurements(run, nodes) && i + 1 < |run| && Followed(run, i)
    ensures Followed(run, i + 1)
  {
    hide Ran, Now, Calm, Rung;
    var m, path := run[i], PathOf(run, i);
    assert Calm(m, nodes) && Ran(rating, policy, m);
    assert HandedOver(run, i);
    assert Follows(run, i);
    CalmCycle(rating, policy, m, nodes);
    if IsSwitch(m.decision) {
      SwitchIsRung(rating, policy, m, nodes, path);
      assert (path + [m.decision.target])[1..] == path[1..] + [m.decision.target];
    }
  }

  // ----- From ladders to runs

  /** With `cooldowns` the best other primary node is called `to`, and is 75 points above `from`. */
  predicate Outdone(rating: Rating, nodes: seq<Node>, cooldowns: map<string, int>, from: string, to: string) {
    var c := Candidates(rating, nodes, Primary, cooldowns, from);
    && c != [] && c[0].name == to && NodeByName(nodes, from).Some?
    && rating(c[0].metrics) >= rating(NodeByName(nodes, from).value.metrics) + 75.0
  }

  /** Ready for the first of two rank checks at `now`, with the cooldowns `base` as they were at `last`. */
  predicate Rested(s: State, base: map<string, int>, last: int, now: int) {
    && s.qualificationSince == 0 && !s.status.InternetDown? && s.recoveryGraceUntil <= now
    && s.nextRankCheck <= now && s.rankStreak == 0 && last <= now && s.cooldowns == Purge(base, last)
  }

  function Working(nodes: seq<Node>, active: string, now: int): Observation {
    Observation(now, true, true, active, Primary, nodes, Control(true, Auto, "", 0))
  }

  function Interval(policy: Policy): (r: int)
    ensures policy.rankUpgradeInterval > 0 ==> r >= 0
  {
    Seconds(policy.rankUpgradeInterval)
  }

  lemma {:induction false} FirstCheckPasses(rating: Rating, policy: Policy, s: State, nodes: seq<Node>, from: string,
          to: string, base: map<string, int>, last: int, now: int) returns (m: Moment)
    requires Rested(s, base, last, now) && now > 0 && policy.rankUpgradeInterval > 0 && Usable(from)
    requires Outdone(rating, nodes, Purge(base, now), from, to)
    ensures Ran(rating, policy, m) && m.before == s && m.observation == Working(nodes, from, now) && m.At() == now
    ensures m.decision.action.Keep? && Calm(m, nodes)
    ensures var t := m.after;
            && t.qualificationSince == 0 && !t.status.InternetDown? && t.recoveryGraceUntil <= now
            && t.nextRankCheck == now + Interval(policy) && t.rankStreak == 1 && t.rankTarget == to
            && t.active == from && t.cooldowns == Purge(base, now)
  {
    hide Candidates, Seconds, Failback, Degraded, EmergencyStep, Steered, Qualifying, NodeByName;
    assert Purge(Purge(base, last), now) == Purge(base, now);
    var o := Working(nodes, from, now);
    var out := StepState(rating, s, o, policy, now);
    m := Moment(s, o, now, out.state, out.decision);
  }

  lemma {:induction false} SecondCheckSwitches(rating: Rating, policy: Policy, s: State, nodes: seq<Node>, from: string,
          to: string, base: map<string, int>, last: int, now: int) returns (m: Moment)
    requires s.qualificationSince == 0 && !s.status.InternetDown? && s.recoveryGraceUntil <= now
    requires s.nextRankCheck <= now && s.rankStreak == 1 && s.rankTarget == to && s.active == from
    requires last <= now && s.cooldowns == Purge(base, last)
    requires now > 0 && policy.rankUpgradeInterval > 0 && Usable(from)
    requires Outdone(rating, nodes, Purge(base, now), from, to)
    ensures Ran(rating, policy, m) && m.before == s && m.observation == Working(nodes, from, now) && m.At() == now
    ensures IsSwitch(m.decision) && m.decision.target == to && Calm(m, nodes)
    ensures Rested(m.after, base, now, now + 60)
  {
    hide Candidates, Seconds, Failback, Degraded, EmergencyStep, Steered, Qualifying, NodeByName;
    assert Purge(Purge(base, last), now) == Purge(base, now);
    var o := Working(nodes, from, now);
    var out := StepState(rating, s, o, policy, now);
    m := Moment(s, o, now, out.state, out.decision);
  }

  /** `to` outdoes `from` at the check at `now` and at the next one. */
  ghost predicate Confirmed(rating: Rating, policy: Policy, nodes: seq<Node>, base: map<string, int>, from: string,
          to: string, now: int) {
    && Usable(from)
    && Outdone(rating, nodes, Purge(base, now), from, to)
    && Outdone(rating, nodes, Purge(base, now + Interval(policy)), from, to)
  }

  /** From a switch to the next one at the earliest. */
  function Lap(policy: Policy): int {
    Interval(policy) + 60
  }

  /** Every step of the path is confirmed, the first from `t` on, the others a lap later each. */
  ghost predicate Guided(rating: Rating, policy: Policy, nodes: seq<Node>, base: map<string, int>, path: seq<string>,
          t: int) {
    forall i: nat :: i + 1 < |path| ==>
      Confirmed(rating, policy, nodes, base, path[i], path[i + 1], t + i * Lap(policy))
  }

  /** Along such a path a run switches at every second cycle. */
  ghost predicate Climbs(run: seq<Moment>, path: seq<string>) {
    && |run| == 2 * (|path| - 1)
    && forall i: nat :: i + 1 < |path| ==>
         && run[2 * i].observation.active == path[i] && !IsSwitch(run[2 * i].decision)
         && run[2 * i + 1].observation.active == path[i] && IsSwitch(run[2 * i + 1].decision)
         && run[2 * i + 1].decision.target == path[i + 1]
  }

  lemma {:induction false} GuidedTail(rating: Rating, policy: Policy, nodes: seq<Node>, base: map<string, int>,
          path: seq<string>, t: int)
    requires Guided(rating, policy, nodes, base, path, t) && path != []
    ensures Guided(rating, policy, nodes, base, path[1..], t + Lap(policy))
  {
    hide Confirmed, Lap;
    var tail, d := path[1..], Lap(policy);
    forall i: nat | i + 1 < |tail|
      ensures Confirmed(rating, policy, nodes, base, tail[i], tail[i + 1], t + d + i * d)
    {
      assert t + (i + 1) * d == t + d + i * d;
      assert Confirmed(rating, policy, nodes, base, path[i + 1], path[(i + 1) + 1], t + (i + 1) * d);
    }
  }

  /** A guided path can be run, from any rested state. */
  lemma {:induction false} Climb(rating: Rating, policy: Policy, nodes: seq<Node>, base: map<string, int>,
          path: seq<string>, s: State, last: int, t: int) returns (run: seq<Moment>)
    requires Guided(rating, policy, nodes, base, path, t) && |path| > 1
    requires Rested(s, base, last, t) && t > 0 && policy.rankUpgradeInterval > 0
    ensures IsRun(rating, policy, run) && FixedMeasurements(run, nodes) && Climbs(run, path)
    ensures run != [] && run[0].before == s
    decreases |path|
  {
    hide Confirmed, Ran, Calm, Lap, IsRun, FixedMeasurements, Climbs, Guided;
    var a, b := Checks(rating, policy, nodes, base, path, s, last, t);
    run := [a, b];
    LastPair(rating, policy, nodes, path[..2], a, b);
    if |path| == 2 {
      assert path[..2] == path;
    } else {
      GuidedTail(rating, policy, nodes, base, path, t);
      var rest := Climb(rating, policy, nodes, base, path[1..], b.after, t + Interval(policy), t + Lap(policy));
      run := [a, b] + rest;
      ClimbsPrepend(path, a, b, rest);
      Prepend(rating, policy, nodes, b, rest);
      Prepend(rating, policy, nodes, a, [b] + rest);
      assert [a] + ([b] + rest) == run;
    }
  }

  lemma {:induction false} Checks(rating: Rating, policy: Policy, nodes: seq<Node>, base: map<string, int>,
          path: seq<string>, s: State, last: int, t: int) returns (a: Moment, b: Moment)
    requires Guided(rating, policy, nodes, base, path, t) && |path| > 1
    requires Rested(s, base, last, t) && t > 0 && policy.rankUpgradeInterval > 0
    ensures Ran(rating, policy, a) && Ran(rating, policy, b) && Calm(a, nodes) && Calm(b, nodes)
    ensures a.before == s && a.after == b.before
    ensures a.observation.active == path[0] == b.observation.active && a.decision.action.Keep?
    ensures IsSwitch(b.decision) && b.decision.target == path[1]
    ensures Rested(b.after, base, t + Interval(policy), t + Lap(policy))
  {
    hide Outdone, Ran, Now, Seconds, Calm, Interval;
    assert Confirmed(rating, policy, nodes, base, path[0], path[0 + 1], t + 0 * Lap(policy));
    a := FirstCheckPasses(rating, policy, s, nodes, path[0], path[1], base, last, t);
    b := SecondCheckSwitches(rating, policy, a.after, nodes, path[0], path[1], base, t, t + Interval(policy));
  }

  lemma {:induction false} LastPair(rating: Rating, policy: Policy, nodes: seq<Node>, path: seq<string>, a: Moment,
          b: Moment)
    requires |path| == 2 && Ran(rating, policy, a) && Ran(rating, policy, b) && Calm(a, nodes) && Calm(b, nodes)
    requires a.after == b.before && a.observation.active == path[0] == b.observation.active && a.decision.action.Keep?
    requires IsSwitch(b.decision) && b.decision.target == path[1]
    ensures IsRun(rating, policy, [a, b]) && FixedMeasurements([a, b], nodes) && Climbs([a, b], path)
  {
    hide Ran, Calm;
    assert Follows([a, b], 0);
  }

  lemma {:induction false} Prepend(rating: Rating, policy: Policy, nodes: seq<Node>, m: Moment, rest: seq<Moment>)
    requires IsRun(rating, policy, rest) && FixedMeasurements(rest, nodes) && rest != []
    requires Ran(rating, policy, m) && Calm(m, nodes) && m.after == rest[0].before
    requires rest[0].observation.active == InUse([m], 1)
    ensures IsRun(rating, policy, [m] + rest) && FixedMeasurements([m] + rest, nodes)
  {
    hide Ran, Calm;
    PrependRun(rating, policy, m, rest);
    var run := [m] + rest;
    forall k: nat | k + 1 < |run|
      ensures Follows(run, k)
    {
      if k > 0 {
        assert Follows(rest, k - 1);
      }
    }
  }

  lemma {:induction false} PrependRun(rating: Rating, policy: Policy, m: Moment, rest: seq<Moment>)
    requires IsRun(rating, policy, rest) && rest != [] && Ran(rating, policy, m) && m.after == rest[0].before
    ensures IsRun(rating, policy, [m] + rest)
  {
    hide Ran;
    var run := [m] + rest;
    forall k: nat | k + 1 < |run|
      ensures HandedOver(run, k)
    {
      if k > 0 {
        assert HandedOver(rest, k - 1);
      }
    }
  }

  /** The two cycles of one step, before the run along the others. */
  lemma {:induction false} ClimbsPrepend(path: seq<string>, a: Moment, b: Moment, rest: seq<Moment>)
    requires |path| > 2 && Climbs(rest, path[1..])
    requires a.observation.active == path[0] == b.observation.active && !IsSwitch(a.decision)
    requires IsSwitch(b.decision) && b.decision.target == path[1]
    ensures Climbs([a, b] + rest, path) && rest[0].observation.active == path[1]
  {
    hide IsSwitch;
    var run, tail := [a, b] + rest, path[1..];
    assert rest[2 * 0].observation.active == tail[0];
    forall i: nat | i + 1 < |path|
      ensures run[2 * i].observation.active == path[i] && !IsSwitch(run[2 * i].decision)
      ensures run[2 * i + 1].observation.active == path[i] && IsSwitch(run[2 * i + 1].decision)
      ensures run[2 * i + 1].decision.target == path[i + 1]
    {
      if i > 0 {
        var j: nat := i - 1;
        assert run[2 * i] == rest[2 * j] && run[2 * i + 1] == rest[2 * j + 1];
        assert tail[j] == path[i] && tail[j + 1] == path[i + 1];
      }
    }
  }

  /** A climbing run switches once for every step. */
  lemma {:induction false} ClimbCounts(run: seq<Moment>, path: seq<string>, i: nat)
    requires Climbs(run, path) && i < |path|
    ensures Switches(run, 2 * i) == i
  {
    if i > 0 {
      var j: nat := i - 1;
      ClimbCounts(run, path, j);
      assert j + 1 < |path|;
      assert Switches(run, 2 * j + 1) == j;
      assert Switches(run, 2 * j + 2) == i;
    }
  }

  // ----- Cooldowns that make a ladder the path

  /** When the step that takes the name is due. */
  function Due(path: seq<string>, t: int, lap: int, name: string): int
    requires path != []
  {
    t + First(path[1..], name) * lap
  }

  /** Every node cools down until then. */
  function Schedule(nodes: seq<Node>, path: seq<string>, t: int, lap: int): map<string, int>
    requires path != []
  {
    map n | n in nodes :: n.name := Due(path, t, lap, n.name)
  }

  /** During step `i` the names stepped to so far are free, and no others. */
  lemma {:induction false} ScheduleHolds(nodes: seq<Node>, path: seq<string>, t: int, lap: int, i: nat, now: int,
          n: Node)
    requires i + 1 < |path| && lap > 0 && t + i * lap <= now < t + i * lap + lap && n in nodes
    ensures n.name !in Purge(Schedule(nodes, path, t, lap), now) <==> n.name in path[1..i + 2]
  {
    DueTells(path, t, lap, i, now, n.name);
    hide Due;
  }

  lemma {:induction false} DueTells(path: seq<string>, t: int, lap: int, i: nat, now: int, name: string)
    requires i + 1 < |path| && lap > 0 && t + i * lap <= now < t + i * lap + lap
    ensures Due(path, t, lap, name) <= now <==> name in path[1..i + 2]
  {
    hide First;
    IndexTells(path[1..], i, name);
    assert path[1..][..i + 1] == path[1..i + 2];
    var k: nat := First(path[1..], name);
    if k <= i {
      LapsLater(k, i, lap);
    } else {
      LapsLater(i + 1, k, lap);
      LapsLater(i, i + 1, lap);
    }
  }

  lemma {:induction false} IndexTells(names: seq<string>, i: nat, name: string)
    requires i < |names|
    ensures name in names[..i + 1] <==> First(names, name) <= i
  {
    var k := First(names, name);
    hide First;
    if k <= i {
      assert names[..i + 1][k] == name;
    }
  }

  lemma {:induction false} LapsLater(a: nat, b: nat, lap: int)
    requires a <= b && lap > 0
    ensures b * lap == a * lap + (b - a) * lap && b * lap >= a * lap
  {
  }

  /** The head of the candidates has the name and the score of any best one. */
  lemma {:induction false} BestIsHead(rating: Rating, nodes: seq<Node>, cooldowns: map<string, int>, exclude: string,
          best: Node)
    requires IsBest(rating, best, nodes, Primary, cooldowns, exclude)
    ensures var c := Candidates(rating, nodes, Primary, cooldowns, exclude);
            c != [] && c[0].name == best.name && rating(c[0].metrics) == rating(best.metrics)
  {
    HeadIsBest(rating, nodes, Primary, cooldowns, exclude);
    hide Candidates;
    var head := Candidates(rating, nodes, Primary, cooldowns, exclude)[0];
    assert !Better(rating, head, best) && !Better(rating, best, head);
    Lex.Total(head.name, best.name);
  }

  lemma {:induction false} RungOutdoes(rating: Rating, nodes: seq<Node>, path: seq<string>, i: nat,
          cooldowns: map<string, int>)
    requires i + 1 < |path| && Rung(rating, nodes, path, i)
    requires forall n <- nodes :: n.name !in cooldowns <==> n.name in path[1..i + 2]
    ensures Outdone(rating, nodes, cooldowns, path[i], path[i + 1])
  {
    hide Better, Candidates;
    var best :| best in nodes && best.name == path[i + 1] && Above(rating, nodes, path[i], best)
                && forall n <- nodes :: n.alive && n.pool.Primary? && n.name in path[1..i + 2] && n.name != path[i] ==>
                      !Better(rating, n, best);
    assert path[1..i + 2][i] == path[i + 1];
    assert IsBest(rating, best, nodes, Primary, cooldowns, path[i]);
    BestIsHead(rating, nodes, cooldowns, path[i], best);
  }

  lemma {:induction false} RungConfirmed(rating: Rating, policy: Policy, nodes: seq<Node>, path: seq<string>, i: nat,
          t: int)
    requires i + 1 < |path| && Rung(rating, nodes, path, i) && policy.rankUpgradeInterval > 0
    ensures Confirmed(rating, policy, nodes, Schedule(nodes, path, t, Lap(policy)), path[i], path[i + 1],
            t + i * Lap(policy))
  {
    hide Rung, Outdone, Schedule;
    var base, now := Schedule(nodes, path, t, Lap(policy)), t + i * Lap(policy);
    RungUsable(rating, nodes, path, i);
    forall n | n in nodes
      ensures n.name !in Purge(base, now) <==> n.name in path[1..i + 2]
      ensures n.name !in Purge(base, now + Interval(policy)) <==> n.name in path[1..i + 2]
    {
      ScheduleHolds(nodes, path, t, Lap(policy), i, now, n);
      ScheduleHolds(nodes, path, t, Lap(policy), i, now + Interval(policy), n);
    }
    RungOutdoes(rating, nodes, path, i, Purge(base, now));
    RungOutdoes(rating, nodes, path, i, Purge(base, now + Interval(policy)));
  }

  /** Every ladder can be run. */
  lemma {:induction false} LadderRuns(rating: Rating, policy: Policy, nodes: seq<Node>, path: seq<string>)
      returns (run: seq<Moment>)
    requires Ladder(rating, nodes, path) && |path| > 1 && policy.rankUpgradeInterval > 0
    ensures IsRun(rating, policy, run) && FixedMeasurements(run, nodes) && Climbs(run, path)
  {
    hide Rung, Confirmed, IsRun, FixedMeasurements, Climbs, Schedule;
    var base := Schedule(nodes, path, 1000, Lap(policy));
    forall i: nat | i + 1 < |path|
      ensures Confirmed(rating, policy, nodes, base, path[i], path[i + 1], 1000 + i * Lap(policy))
    {
      assert Rung(rating, nodes, path, i);
      RungConfirmed(rating, policy, nodes, path, i, 1000);
    }
    ScheduleStarts(nodes, path, Lap(policy));
    run := Climb(rating, policy, nodes, base, path, INITIAL.(cooldowns := base), 0, 1000);
  }

  lemma {:induction false} RungUsable(rating: Rating, nodes: seq<Node>, path: seq<string>, i: nat)
    requires i + 1 < |path| && Rung(rating, nodes, path, i)
    ensures Usable(path[i]) && path[i] != path[i + 1]
  {
  }

  lemma {:induction false} ScheduleStarts(nodes: seq<Node>, path: seq<string>, lap: int)
    requires path != [] && lap > 0
    ensures Purge(Schedule(nodes, path, 1000, lap), 0) == Schedule(nodes, path, 1000, lap)
  {
    forall n | n in nodes
      ensures Due(path, 1000, lap, n.name) >= 1000
    {
    }
  }

  // ----- How many switches

  /** Some run with fixed measurements switches `k` times. */
  ghost predicate CanSwitch(rating: Rating, policy: Policy, nodes: seq<Node>, k: nat) {
    exists run: seq<Moment> :: IsRun(rating, policy, run) && FixedMeasurements(run, nodes) && Switches(run, |run|) >= k
  }

  ghost predicate HasLadder(rating: Rating, nodes: seq<Node>, k: nat) {
    exists path: seq<string> :: |path| == k + 1 && Ladder(rating, nodes, path)
  }

  lemma {:induction false} RungPrefix(rating: Rating, nodes: seq<Node>, path: seq<string>, n: nat, i: nat)
    requires i + 1 < n <= |path| && Rung(rating, nodes, path, i)
    ensures Rung(rating, nodes, path[..n], i)
  {
    hide Above, Better;
    assert path[..n][1..i + 2] == path[1..i + 2];
  }

  lemma {:induction false} LadderPrefix(rating: Rating, nodes: seq<Node>, path: seq<string>, n: nat)
    requires Ladder(rating, nodes, path) && 0 < n <= |path|
    ensures Ladder(rating, nodes, path[..n])
  {
    hide Rung;
    forall i: nat | i + 1 < n
      ensures Rung(rating, nodes, path[..n], i)
    {
      assert Rung(rating, nodes, path, i);
      RungPrefix(rating, nodes, path, n, i);
    }
  }

  lemma {:induction false} SwitchNeedsInterval(rating: Rating, policy: Policy, run: seq<Moment>, i: nat)
    requires IsRun(rating, policy, run) && i <= |run| && Switches(run, i) > 0
    ensures policy.rankUpgradeInterval > 0
  {
    hide Ran, Beats, Now;
    RankStep(rating, policy, run[i - 1]);
    if !IsSwitch(run[i - 1].decision) {
      SwitchNeedsInterval(rating, policy, run, i - 1);
    }
  }

  /** Some run switches `k` times exactly if the node list has a ladder of `k` steps (and rank checks are on). */
  lemma {:induction false} SwitchesIffLadder(rating: Rating, policy: Policy, nodes: seq<Node>, k: nat)
    ensures CanSwitch(rating, policy, nodes, k) <==>
              k == 0 || (policy.rankUpgradeInterval > 0 && HasLadder(rating, nodes, k))
  {
    hide IsRun, FixedMeasurements, Ladder, Climbs;
    if k == 0 {
      NothingRuns(rating, policy, nodes);
    } else {
      if CanSwitch(rating, policy, nodes, k) {
        var run: seq<Moment> :| IsRun(rating, policy, run) && FixedMeasurements(run, nodes)
            && Switches(run, |run|) >= k;
        SwitchNeedsInterval(rating, policy, run, |run|);
        RunsClimb(rating, policy, run, nodes, |run| - 1);
        LadderPrefix(rating, nodes, PathOf(run, |run|), k + 1);
      }
      if policy.rankUpgradeInterval > 0 && HasLadder(rating, nodes, k) {
        var path: seq<string> :| |path| == k + 1 && Ladder(rating, nodes, path);
        var run := LadderRuns(rating, policy, nodes, path);
        ClimbLength(run, path);
        ClimbCounts(run, path, k);
      }
    }
  }

  lemma {:induction false} ClimbLength(run: seq<Moment>, path: seq<string>)
    requires Climbs(run, path) && path != []
    ensures |run| == 2 * (|path| - 1)
  {
  }

  lemma {:induction false} NothingRuns(rating: Rating, policy: Policy, nodes: seq<Node>)
    ensures IsRun(rating, policy, []) && FixedMeasurements([], nodes) && Switches([], 0) == 0
  {
  }

  /** Of several nodes with one name the first one scores highest. */
  ghost predicate FirstsAreBest(rating: Rating, nodes: seq<Node>) {
    forall n <- nodes :: n.alive && n.pool.Primary? && NodeByName(nodes, n.name).Some?
      ==> rating(n.metrics) <= rating(NodeByName(nodes, n.name).value.metrics)
  }

  ghost function ScoreOf(rating: Rating, nodes: seq<Node>, name: string): real {
    var n := NodeByName(nodes, name);
    if n.Some? then rating(n.value.metrics) else 0.0
  }

  lemma {:induction false} NameIsFound(nodes: seq<Node>, n: Node)
    requires n in nodes
    ensures NodeByName(nodes, n.name).Some? && NodeByName(nodes, n.name).value.name == n.name
    ensures NodeByName(nodes, n.name).value in nodes
  {
    if nodes[0].name != n.name {
      assert nodes == [nodes[0]] + nodes[1..];
      NameIsFound(nodes[1..], n);
    }
  }

  /** Then every step gains 75 points. */
  lemma {:induction false} LaddersGain(rating: Rating, nodes: seq<Node>, path: seq<string>, i: nat, j: nat)
    requires Ladder(rating, nodes, path) && FirstsAreBest(rating, nodes) && i < j < |path|
    ensures ScoreOf(rating, nodes, path[j]) >= ScoreOf(rating, nodes, path[i]) + 75.0 * (j - i) as real
    ensures NodeByName(nodes, path[i]).Some? && NodeByName(nodes, path[j]).Some?
    decreases j
  {
    hide Better;
    assert Rung(rating, nodes, path, j - 1);
    var best :| best in nodes && best.name == path[j] && Above(rating, nodes, path[j - 1], best);
    NameIsFound(nodes, best);
    if i < j - 1 {
      LaddersGain(rating, nodes, path, i, j - 1);
    }
  }

  /** With bounded scores, and the first of a name the best of it, no run with fixed measurements has more than 13
      rank switches ... */
  lemma {:induction false} AtMostThirteenSwitches(rating: Rating, policy: Policy, run: seq<Moment>, nodes: seq<Node>)
    requires IsRun(rating, policy, run) && FixedMeasurements(run, nodes) && Bounded(rating)
    requires FirstsAreBest(rating, nodes)
    ensures Switches(run, |run|) <= 13
  {
    hide IsRun, FixedMeasurements, Ladder, FirstsAreBest;
    if run != [] && Switches(run, |run|) > 0 {
      RunsClimb(rating, policy, run, nodes, |run| - 1);
      var path := PathOf(run, |run|);
      LaddersGain(rating, nodes, path, 0, |path| - 1);
    }
  }

  /** ... in particular with the score itself ... */
  lemma {:induction false} AtMostThirteenByScore(logRatio: real -> real, policy: Policy, run: seq<Moment>,
          nodes: seq<Node>)
    requires forall x :: x > 0.0 ==> logRatio(x) >= 0.0
    requires IsRun(ScoreRating(logRatio), policy, run) && FixedMeasurements(run, nodes)
    requires FirstsAreBest(ScoreRating(logRatio), nodes)
    ensures Switches(run, |run|) <= 13
  {
    ScoreRatingIsBounded(logRatio);
    AtMostThirteenSwitches(ScoreRating(logRatio), policy, run, nodes);
  }

  /** ... and none returns to a node that was already left. */
  lemma {:induction false} SwitchesNeverReturn(rating: Rating, policy: Policy, run: seq<Moment>, nodes: seq<Node>,
          i: nat, j: nat)
    requires IsRun(rating, policy, run) && FixedMeasurements(run, nodes) && FirstsAreBest(rating, nodes)
    requires i <= j < |run|
    requires IsSwitch(run[i].decision) && IsSwitch(run[j].decision)
    ensures run[j].decision.target != run[i].observation.active
  {
    hide IsRun, FixedMeasurements, Ladder, FirstsAreBest;
    var p, q := PathIndices(rating, policy, run, nodes, i, j);
    LaddersGain(rating, nodes, PathOf(run, j + 1), p, q);
  }

  /** Where the path of a run leaves the node in use in cycle `i`, and where it gets to in cycle `j`. */
  lemma {:induction false} PathIndices(rating: Rating, policy: Policy, run: seq<Moment>, nodes: seq<Node>, i: nat,
          j: nat)
    returns (p: nat, q: nat)
    requires IsRun(rating, policy, run) && FixedMeasurements(run, nodes) && i <= j < |run|
    requires IsSwitch(run[i].decision) && IsSwitch(run[j].decision)
    ensures Ladder(rating, nodes, PathOf(run, j + 1))
    ensures var path := PathOf(run, j + 1);
            p < q < |path| && path[p] == run[i].observation.active && path[q] == run[j].decision.target
  {
    hide IsRun, FixedMeasurements, Ladder;
    RunsClimb(rating, policy, run, nodes, j);
    RunsClimb(rating, policy, run, nodes, i);
    p, q := Switches(run, i), Switches(run, j + 1);
    PathGrows(run, i, j + 1);
    PathGrows(run, i + 1, j + 1);
  }

  lemma {:induction false} PathGrows(run: seq<Moment>, i: nat, j: nat)
    requires i <= j <= |run| && run != []
    ensures PathOf(run, i) <= PathOf(run, j)
  {
    if i < j {
      PathGrows(run, i, j - 1);
    }
  }
}
