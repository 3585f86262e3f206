/** What a single controller decision guarantees: selections name the best node they may choose. */
module ControllerChoice {
  import opened Wrappers
  import opened Rank
  import opened Seqs
  import opened StableSort
  import opened Controller
  import Lex

  // ----- Choosing the best candidate

  lemma {:induction false} BetterIsStrictWeak(rating: Rating, x: Node, y: Node, z: Node)
    ensures Better(rating, x, y) ==> !Better(rating, y, x)
    ensures Better(rating, x, y) ==> Better(rating, x, z) || Better(rating, z, y)
  {
    Lex.Total(x.name, y.name);
    Lex.Total(x.name, z.name);
    Lex.Total(z.name, y.name);
    if Lex.Less(z.name, x.name) && Lex.Less(x.name, y.name) {
      Lex.Transitive(z.name, x.name, y.name);
    }
  }

  lemma {:induction false} ByRankIsStrictWeak(rating: Rating)
    ensures StrictWeak(ByRank(rating))
  {
    forall x, y, z
      ensures ByRank(rating)(x, y) ==> !ByRank(rating)(y, x)
      ensures ByRank(rating)(x, y) ==> ByRank(rating)(x, z) || ByRank(rating)(z, y)
    {
      BetterIsStrictWeak(rating, x, y, z);
    }
  }

  /** `best` is eligible and no eligible node ranks before it. */
  ghost predicate IsBest(rating: Rating, best: Node, nodes: seq<Node>, pool: Pool, cooldowns: map<string, int>,
          exclude: string) {
    && best in nodes && Eligible(pool, cooldowns, exclude, best)
    && forall n <- nodes :: Eligible(pool, cooldowns, exclude, n) ==> !Better(rating, n, best)
  }

  /** What being the best means: a primary node if one is eligible, else an emergency node if one is; among nodes of one
      pool the highest score, and of equal scores the smallest name. */
  lemma {:induction false} BestMeans(rating: Rating, best: Node, nodes: seq<Node>, pool: Pool,
          cooldowns: map<string, int>, exclude: string, n: Node)
    requires IsBest(rating, best, nodes, pool, cooldowns, exclude)
    requires n in nodes && n.alive && n.name != exclude && (pool == NoPool || n.pool == pool) && n.name !in cooldowns
    ensures n.pool.Primary? ==> best.pool.Primary?
    ensures n.pool.Emergency? ==> best.pool.Primary? || best.pool.Emergency?
    ensures n.pool == best.pool ==>
              && rating(best.metrics) >= rating(n.metrics)
              && (rating(best.metrics) == rating(n.metrics) ==> best.name == n.name || Lex.Less(best.name, n.name))
  {
    Lex.Total(best.name, n.name);
  }

  lemma {:induction false} CandidatesMembers(rating: Rating, nodes: seq<Node>, pool: Pool, cooldowns: map<string, int>,
          exclude: string)
    ensures var c := Candidates(rating, nodes, pool, cooldowns, exclude);
            && (forall n :: n in c <==> n in nodes && Eligible(pool, cooldowns, exclude, n))
            && Sorted(ByRank(rating), c)
  {
    var keep := Chosen(pool, cooldowns, exclude);
    var chosen := Filter(keep, nodes);
    ByRankIsStrictWeak(rating);
    SortIsSorted(ByRank(rating), chosen);
    FilterMembers(keep, nodes);
    var c := Candidates(rating, nodes, pool, cooldowns, exclude);
    forall n
      ensures n in c <==> n in nodes && Eligible(pool, cooldowns, exclude, n)
    {
      assert n in c <==> n in multiset(c);
      assert n in chosen <==> n in multiset(chosen);
    }
  }

  /** The head of the candidate list is the best eligible node; the list is empty only if there is none. */
  lemma {:induction false} HeadIsBest(rating: Rating, nodes: seq<Node>, pool: Pool, cooldowns: map<string, int>,
          exclude: string)
    ensures var c := Candidates(rating, nodes, pool, cooldowns, exclude);
            if c == [] then forall n <- nodes :: !Eligible(pool, cooldowns, exclude, n)
            else IsBest(rating, c[0], nodes, pool, cooldowns, exclude)
  {
    CandidatesMembers(rating, nodes, pool, cooldowns, exclude);
    var c := Candidates(rating, nodes, pool, cooldowns, exclude);
    if c != [] {
      forall n | n in nodes && Eligible(pool, cooldowns, exclude, n)
        ensures !Better(rating, n, c[0])
      {
        assert n in c;
        var i :| 0 <= i < |c| && c[i] == n;
        if i == 0 {
          BetterIsStrictWeak(rating, n, n, n);
        } else {
          assert !ByRank(rating)(c[i], c[0]);
        }
      }
    }
  }

  /** Among the candidates that also pass `keep`, the first one is the best. */
  lemma {:induction false} FirstKeptIsBest(rating: Rating, keep: Node -> bool, nodes: seq<Node>, pool: Pool,
          cooldowns: map<string, int>, exclude: string)
    ensures var kept := Filter(keep, Candidates(rating, nodes, pool, cooldowns, exclude));
            kept != [] ==>
              && kept[0] in nodes && Eligible(pool, cooldowns, exclude, kept[0]) && keep(kept[0])
              && forall n <- nodes :: Eligible(pool, cooldowns, exclude, n) && keep(n) ==> !Better(rating, n, kept[0])
  {
    CandidatesMembers(rating, nodes, pool, cooldowns, exclude);
    var c := Candidates(rating, nodes, pool, cooldowns, exclude);
    var kept := Filter(keep, c);
    FilterMembers(keep, c);
    if kept != [] {
      assert kept[0] in kept;
      forall n | n in nodes && Eligible(pool, cooldowns, exclude, n) && keep(n)
        ensures !Better(rating, n, kept[0])
      {
        assert n in c;
        FilterHeadFirst(rating, keep, c, n);
      }
    }
  }

  lemma {:induction false} FilterHeadFirst(rating: Rating, keep: Node -> bool, c: seq<Node>, n: Node)
    requires Sorted(ByRank(rating), c) && n in c && keep(n)
    ensures Filter(keep, c) != [] && !Better(rating, n, Filter(keep, c)[0])
  {
    var last := |c| - 1;
    assert c == c[..last] + [c[last]];
    if n in c[..last] {
      FilterHeadFirst(rating, keep, c[..last], n);
    } else {
      FilterMembers(keep, c[..last]);
      if Filter(keep, c[..last]) != [] {
        var head := Filter(keep, c[..last])[0];
        assert head in Filter(keep, c[..last]);
        var i :| 0 <= i < last && c[i] == head;
        assert !ByRank(rating)(c[last], c[i]);
      } else {
        BetterIsStrictWeak(rating, n, n, n);
      }
    }
  }

  // ----- What a single decision says

  /** Selections the controller makes by itself, as opposed to manual control and switching the service off. */
  predicate Automatic(d: Decision) {
    d.action.Select? && (d.reason.ActiveFailed? || d.reason.HigherRankStable? || d.reason.HigherPriorityStable?
        || d.reason.EmergencySelect?)
  }

  /** The pool an automatic selection is made from. */
  function SourcePool(reason: Reason): Pool {
    match reason
    case EmergencySelect => Emergency
    case HigherRankStable => Primary
    case HigherPriorityStable => Primary
    case _ => NoPool
  }

  /** The active node is left out, except by a failback, where it belongs to another pool. */
  function Excluded(o: Observation, reason: Reason): string {
    if reason.HigherPriorityStable? then "" else o.active
  }

  /** The cooldowns in force when the decision was taken: the unexpired ones, and the node that just failed. */
  function InForce(previous: State, o: Observation, policy: Policy, wall: int, reason: Reason): map<string, int> {
    var live := Purge(previous.cooldowns, Now(o, wall));
    if o.active != "" && (reason.ActiveFailed? || (reason.EmergencySelect? && CurrentPool(o).Emergency?))
    then live[o.active := Now(o, wall) + Seconds(policy.cooldown)] else live
  }

  /** A failback may only choose a node retested since the failback was requested. */
  predicate Fit(previous: State, reason: Reason, n: Node) {
    reason.HigherPriorityStable? ==> Retested(previous.recoveryRequestedAt)(n)
  }

  /** The decision names an alive node that is not cooling down, the maximum by pool priority, score
      and name of the nodes it may choose from. */
  ghost predicate SelectsBest(rating: Rating, previous: State, o: Observation, policy: Policy, wall: int, d: Decision) {
    var pool, exclude := SourcePool(d.reason), Excluded(o, d.reason);
    var cooldowns := InForce(previous, o, policy, wall, d.reason);
    exists best <- o.nodes ::
      && best.name == d.target && best.pool == d.pool
      && Eligible(pool, cooldowns, exclude, best) && Fit(previous, d.reason, best)
      && forall n <- o.nodes :: Eligible(pool, cooldowns, exclude, n) && Fit(previous, d.reason, n) ==>
            !Better(rating, n, best)
  }

  // The branches of a step that select by themselves, one lemma each.

  lemma {:induction false} ReplacementChoice(rating: Rating, s: State, o: Observation, policy: Policy, now: int,
          emergency: bool, counts: bool)
    ensures var d := Replacement(rating, s, o, policy, now, emergency, counts).decision;
            && (d.reason.HigherRankStable? || d.reason.HigherPriorityStable? ==> false)
            && (d.action.Select? ==>
                  var cooldowns := if counts then s.cooldowns[o.active := now + Seconds(policy.cooldown)]
                      else s.cooldowns;
                  var c := Candidates(rating, o.nodes, if emergency then Emergency else NoPool, cooldowns, o.active);
                  c != [] && d == Named(Select, c[0], if emergency then EmergencySelect else ActiveFailed))
  {
  }

  lemma {:induction false} FailbackChoice(rating: Rating, s: State, o: Observation, policy: Policy, now: int)
    ensures var d := Failback(rating, s, o, policy, now).decision;
            d.action.Select? ==>
              var c := Filter(Retested(s.recoveryRequestedAt), Candidates(rating, o.nodes, Primary, s.cooldowns, ""));
              c != [] && d == Named(Select, c[0], HigherPriorityStable)
  {
  }

  lemma {:induction false} HealthyChoice(rating: Rating, s: State, o: Observation, policy: Policy, now: int)
    ensures var d := Healthy(rating, s, o, policy, now).decision;
            d.action.Select? ==>
              if d.reason.HigherRankStable? then
                var c := Candidates(rating, o.nodes, Primary, s.cooldowns, o.active);
                c != [] && d == Decision(Select, c[0].name, Primary, HigherRankStable)
              else
                var c := Filter(Retested(s.recoveryRequestedAt), Candidates(rating, o.nodes, Primary, s.cooldowns, ""));
                c != [] && d == Named(Select, c[0], HigherPriorityStable)
  {
    hide Candidates, Filter, Failback;
    var t := s.(status := ProxyOk, failureStreak := 0);
    var counted := if RankCheckDue(t, policy, now) then CountRank(rating, t, o, policy, now) else t;
    FailbackChoice(rating, ExpireWindow(counted, policy, now), o, policy, now);
  }

  /** The state in which the mode branches start. */
  function Arrived(previous: State, o: Observation, wall: int): State {
    Entered(previous, o, Now(o, wall)).(wanAvailable := true)
  }

  /** The candidate list an automatic selection takes the head of. */
  function ChoiceList(rating: Rating, previous: State, o: Observation, policy: Policy, wall: int,
          reason: Reason): seq<Node> {
    var all := Candidates(rating, o.nodes, SourcePool(reason), InForce(previous, o, policy, wall, reason),
        Excluded(o, reason));
    if reason.HigherPriorityStable? then Filter(Retested(previous.recoveryRequestedAt), all) else all
  }

  ghost predicate FromList(c: seq<Node>, d: Decision) {
    c != [] && d.target == c[0].name && (d.pool == c[0].pool || (d.reason.HigherRankStable? && d.pool.Primary?))
  }

  lemma {:induction false} AutoChoice(rating: Rating, previous: State, o: Observation, policy: Policy, wall: int)
    requires var d := AutoStep(rating, Arrived(previous, o, wall), o, policy, Now(o, wall)).decision; Automatic(d)
    ensures var d := AutoStep(rating, Arrived(previous, o, wall), o, policy, Now(o, wall)).decision;
            FromList(ChoiceList(rating, previous, o, policy, wall, d.reason), d)
  {
    hide Candidates, Replacement, Healthy, Filter;
    var s, now := Arrived(previous, o, wall), Now(o, wall);
    var t := (if s.active != o.active then s.(rankTarget := "", rankStreak := 0) else s)
             .(active := o.active, activePool := CurrentPool(o));
    if o.active != "" && o.active != DIRECT && o.activeOk {
      HealthyChoice(rating, t, o, policy, now);
    } else {
      var u := t.(status := ProxyDegraded, rankTarget := "", rankStreak := 0,
                  failureStreak := if o.active == "" || o.active == DIRECT then policy.failureLimit
                      else t.failureStreak + 1);
      ReplacementChoice(rating, u, o, policy, now, false, o.active != "");
    }
  }

  lemma {:induction false} EmergencyChoice(rating: Rating, previous: State, o: Observation, policy: Policy, wall: int)
    requires var d := EmergencyStep(rating, Arrived(previous, o, wall), o, policy, Now(o, wall)).decision; Automatic(d)
    ensures var d := EmergencyStep(rating, Arrived(previous, o, wall), o, policy, Now(o, wall)).decision;
            d.reason.EmergencySelect? && FromList(ChoiceList(rating, previous, o, policy, wall, d.reason), d)
  {
    hide Candidates, Replacement, Filter;
    var s, now, pool := Arrived(previous, o, wall), Now(o, wall), CurrentPool(o);
    var t := EmergencyFailing(s, o, policy);
    ReplacementChoice(rating, t, o, policy, now, true, pool == Emergency && o.active != "");
  }

  /** Which branch an automatic selection comes from. */
  lemma {:induction false} AutomaticBranch(rating: Rating, previous: State, o: Observation, policy: Policy, wall: int)
    requires Automatic(StepState(rating, previous, o, policy, wall).decision)
    ensures var s, now := Arrived(previous, o, wall), Now(o, wall);
            && o.wan && o.control.enabled && s.qualificationSince <= 0 && !s.mode.Manual?
            && StepState(rating, previous, o, policy, wall) ==
               if s.mode.EmergencyOnly? then EmergencyStep(rating, s, o, policy, now)
                   else AutoStep(rating, s, o, policy, now)
  {
  }

  lemma {:induction false} AutomaticSelectsBest(rating: Rating, previous: State, o: Observation, policy: Policy,
          wall: int)
    requires Automatic(StepState(rating, previous, o, policy, wall).decision)
    ensures SelectsBest(rating, previous, o, policy, wall, StepState(rating, previous, o, policy, wall).decision)
  {
    var d := StepState(rating, previous, o, policy, wall).decision;
    AutomaticBranch(rating, previous, o, policy, wall);
    if Arrived(previous, o, wall).mode.EmergencyOnly? {
      EmergencyChoice(rating, previous, o, policy, wall);
    } else {
      AutoChoice(rating, previous, o, policy, wall);
    }
    ListHeadIsBest(rating, previous, o, policy, wall, d);
  }

  lemma {:induction false} ListHeadIsBest(rating: Rating, previous: State, o: Observation, policy: Policy, wall: int,
          d: Decision)
    requires FromList(ChoiceList(rating, previous, o, policy, wall, d.reason), d)
    ensures SelectsBest(rating, previous, o, policy, wall, d)
  {
    var pool, exclude, cooldowns := SourcePool(d.reason), Excluded(o, d.reason),
        InForce(previous, o, policy, wall, d.reason);
    if d.reason.HigherPriorityStable? {
      FirstKeptIsBest(rating, Retested(previous.recoveryRequestedAt), o.nodes, pool, cooldowns, exclude);
    } else {
      HeadIsBest(rating, o.nodes, pool, cooldowns, exclude);
    }
  }

  /** In emergency mode every selection names an alive node of the emergency pool, unless the service is off. */
  lemma {:induction false} EmergencyModeStaysInPool(rating: Rating, previous: State, o: Observation, policy: Policy,
          wall: int)
    requires EffectiveMode(o.control, Now(o, wall)).EmergencyOnly?
    requires var d := StepState(rating, previous, o, policy, wall).decision;
             d.action.Select? && !d.reason.ServiceDisabled?
    ensures var d := StepState(rating, previous, o, policy, wall).decision;
            exists n <- o.nodes :: n.name == d.target && n.alive && n.pool.Emergency? && d.pool.Emergency?
  {
    hide Candidates, Replacement, TestedSince, SelectsBest;
    var s, now, pool := Arrived(previous, o, wall), Now(o, wall), CurrentPool(o);
    var t := EmergencyFailing(s, o, policy);
    ReplacementChoice(rating, t, o, policy, now, true, pool == Emergency && o.active != "");
    AutomaticSelectsBest(rating, previous, o, policy, wall);
    EmergencyTarget(rating, previous, o, policy, wall, StepState(rating, previous, o, policy, wall).decision);
  }

  lemma {:induction false} EmergencyTarget(rating: Rating, previous: State, o: Observation, policy: Policy, wall: int,
          d: Decision)
    requires SelectsBest(rating, previous, o, policy, wall, d) && d.reason.EmergencySelect?
    ensures exists n <- o.nodes :: n.name == d.target && n.alive && n.pool.Emergency? && d.pool.Emergency?
  {
  }

  // ----- Manual control

  /** Nothing keeps an online, enabled controller from steering. */
  predicate Steering(previous: State, o: Observation, wall: int) {
    && o.wan && o.control.enabled && !previous.status.InternetDown? && previous.recoveryGraceUntil <= Now(o, wall)
    && previous.qualificationSince <= 0 && EffectiveMode(o.control, Now(o, wall)).Manual?
  }

  /** Manual control selects exactly when the first node of the chosen name is alive and not in use, and then that
      node, whatever its pool, score or cooldown. */
  lemma {:induction false} ManualSelectsIff(rating: Rating, previous: State, o: Observation, policy: Policy, wall: int)
    requires Steering(previous, o, wall)
    ensures var d, chosen := StepState(rating, previous, o, policy, wall).decision,
            NodeByName(o.nodes, o.control.manualNode);
            && (d.action.Select? <==> chosen.Some? && chosen.value.alive && chosen.value.name != o.active)
            && (d.action.Select? ==> d == Named(Select, chosen.value, ManualControl))
            && (d.action.Select? || d.action.Keep?)
  {
    hide EmergencyStep, AutoStep;
  }

  lemma {:induction false} FoundByName(nodes: seq<Node>, name: string)
    ensures NodeByName(nodes, name).Some? ==>
              NodeByName(nodes, name).value in nodes && NodeByName(nodes, name).value.name == name
    ensures NodeByName(nodes, name).None? ==> forall n <- nodes :: n.name != name
  {
    if nodes != [] && nodes[0].name != name {
      FoundByName(nodes[1..], name);
      assert nodes == [nodes[0]] + nodes[1..];
    }
  }

  /** Under manual control nothing but the chosen node is ever selected, alive, unless the service is off, and the
      failure batch, the rank check and the requalification stay as they were. */
  lemma {:induction false} ManualModeStaysOnNode(rating: Rating, previous: State, o: Observation, policy: Policy,
          wall: int)
    requires EffectiveMode(o.control, Now(o, wall)).Manual?
    ensures var (t, d) :=
            (StepState(rating, previous, o, policy, wall).state, StepState(rating, previous, o, policy, wall).decision);
            && (d.action.Select? && !d.reason.ServiceDisabled? ==>
                  && d.target == o.control.manualNode
                  && exists n <- o.nodes :: n.name == d.target && n.alive && n.pool == d.pool)
            && t.nextRankCheck == previous.nextRankCheck && t.rankTarget == previous.rankTarget
                && t.rankStreak == previous.rankStreak
            && (previous.qualificationSince <= 0 ==> !d.action.Requalify? && t.qualificationSince <= 0)
            && t.failedNodes <= (if previous.failedNodes > 0 then previous.failedNodes else 0)
  {
    hide EmergencyStep, AutoStep, TestedSince;
    FoundByName(o.nodes, o.control.manualNode);
  }
}
