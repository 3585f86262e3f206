/** When a run with fixed measurements returns to a node it had left, and node lists of each kind. */
module ControllerReturns {
  import opened Wrappers
  import opened Rank
  import opened Controller
  import opened ControllerChoice
  import opened ControllerRuns
  import opened ControllerRank
  import opened ControllerLadders

  // ----- When a run can return

  /** Some run with fixed measurements goes back to a node it had left. */
  ghost predicate CanReturn(rating: Rating, policy: Policy, nodes: seq<Node>) {
    exists run: seq<Moment>, i: nat, j: nat :: Returns(rating, policy, nodes, run, i, j)
  }

  ghost predicate Returns(rating: Rating, policy: Policy, nodes: seq<Node>, run: seq<Moment>, i: nat, j: nat) {
    && IsRun(rating, policy, run) && FixedMeasurements(run, nodes) && i <= j < |run|
    && IsSwitch(run[i].decision) && IsSwitch(run[j].decision)
    && run[j].decision.target == run[i].observation.active
  }

  /** Each of two names has a node above the first node of the other. */
  ghost predicate Rivals(rating: Rating, nodes: seq<Node>, x: Node, y: Node) {
    && x.name != y.name && Usable(x.name) && Usable(y.name)
    && Above(rating, nodes, x.name, y) && Above(rating, nodes, y.name, x)
  }

  ghost predicate HaveRivals(rating: Rating, nodes: seq<Node>) {
    exists x, y :: Rivals(rating, nodes, x, y)
  }

  /** The highest node stepped to between `p` and `q`: it is above every name on the way. */
  lemma {:induction false} TopOf(rating: Rating, nodes: seq<Node>, path: seq<string>, p: nat, q: nat)
      returns (m: nat, best: Node)
    requires Ladder(rating, nodes, path) && p < q < |path|
    ensures p < m <= q && best in nodes && best.name == path[m]
    ensures forall r :: p <= r < q ==> Above(rating, nodes, path[r], best)
  {
    hide Better;
    assert Rung(rating, nodes, path, q - 1);
    m := q;
    best :| best in nodes && best.name == path[q] && Above(rating, nodes, path[q - 1], best);
    if p < q - 1 {
      var m', best' := TopOf(rating, nodes, path, p, q - 1);
      assert Above(rating, nodes, path[p], best');
      if rating(best'.metrics) >= rating(best.metrics) {
        m, best := m', best';
      }
      assert forall r :: p <= r < q - 1 ==> Above(rating, nodes, path[r], best') ;
    }
  }

  /** A ladder that comes back to a name has rivals. */
  lemma {:induction false} CyclesHaveRivals(rating: Rating, nodes: seq<Node>, path: seq<string>, p: nat, q: nat)
    requires Ladder(rating, nodes, path) && p < q < |path| && path[p] == path[q]
    ensures HaveRivals(rating, nodes)
  {
    var m, x := TopOf(rating, nodes, path, p, q);
    hide Above, Better;
    var from := if m < q then m else p;
    assert Rung(rating, nodes, path, from);
    var y :| y in nodes && y.name == path[from + 1] && Above(rating, nodes, path[from], y);
    var r := if from + 1 < q then from + 1 else p;
    assert Rung(rating, nodes, path, r) && path[r] == y.name;
    assert Above(rating, nodes, path[r], x);
    assert Rivals(rating, nodes, x, y);
  }

  function Alternation(x: string, y: string, k: nat): (path: seq<string>)
    ensures |path| == k + 1
  {
    seq(k + 1, i requires 0 <= i <= k => if i % 2 == 0 then x else y)
  }

  /** The best working primary node of a name, at least as good as `n`. */
  lemma {:induction false} BestOfName(rating: Rating, nodes: seq<Node>, name: string, n: Node) returns (best: Node)
    requires n in nodes && n.alive && n.pool.Primary? && n.name == name
    ensures best in nodes && best.alive && best.pool.Primary? && best.name == name
    ensures rating(best.metrics) >= rating(n.metrics)
    ensures forall o <- nodes :: o.alive && o.pool.Primary? && o.name == name ==> !Better(rating, o, best)
  {
    best := n;
    for i := 0 to |nodes|
      invariant best in nodes && best.alive && best.pool.Primary? && best.name == name
      invariant rating(best.metrics) >= rating(n.metrics)
      invariant forall k :: 0 <= k < i && nodes[k].alive && nodes[k].pool.Primary? && nodes[k].name == name ==>
                  rating(nodes[k].metrics) <= rating(best.metrics)
    {
      if nodes[i].alive && nodes[i].pool.Primary? && nodes[i].name == name
          && rating(nodes[i].metrics) > rating(best.metrics) {
        best := nodes[i];
      }
    }
    Lex.Total(name, name);
  }

  lemma {:induction false} RivalIsRung(rating: Rating, nodes: seq<Node>, path: seq<string>, i: nat, to: Node)
    requires i + 1 < |path| && path[i] != path[i + 1] == to.name && Usable(path[i]) && Above(rating, nodes, path[i], to)
    requires forall k :: 0 <= k < |path| ==> path[k] == path[i] || path[k] == path[i + 1]
    ensures Rung(rating, nodes, path, i)
  {
    var best := BestOfName(rating, nodes, to.name, to);
    assert Above(rating, nodes, path[i], best);
    hide Better, Above;
    var names := path[1..i + 2];
    forall n | n in nodes && n.alive && n.pool.Primary? && n.name in names && n.name != path[i]
      ensures !Better(rating, n, best)
    {
      var k :| 0 <= k < |names| && names[k] == n.name;
      assert path[k + 1] == n.name;
    }
  }

  /** Rivals make ladders of any length. */
  lemma {:induction false} RivalsAlternate(rating: Rating, nodes: seq<Node>, x: Node, y: Node, k: nat)
    requires Rivals(rating, nodes, x, y)
    ensures Ladder(rating, nodes, Alternation(x.name, y.name, k))
  {
    hide Above, Rung;
    var path := Alternation(x.name, y.name, k);
    forall i: nat | i + 1 < |path|
      ensures Rung(rating, nodes, path, i)
    {
      RivalIsRung(rating, nodes, path, i, if i % 2 == 0 then y else x);
    }
  }

  /** Some run returns to a node it had left exactly if the node list has rivals (and rank checks are on); then runs
      switch any number of times. */
  lemma {:induction false} ReturnsIffRivals(rating: Rating, policy: Policy, nodes: seq<Node>, k: nat)
    ensures CanReturn(rating, policy, nodes) <==> policy.rankUpgradeInterval > 0 && HaveRivals(rating, nodes)
    ensures CanReturn(rating, policy, nodes) ==> CanSwitch(rating, policy, nodes, k)
  {
    hide IsRun, FixedMeasurements, Ladder, Climbs, Rivals;
    if CanReturn(rating, policy, nodes) {
      var run: seq<Moment>, i: nat, j: nat :| Returns(rating, policy, nodes, run, i, j);
      var p, q := PathIndices(rating, policy, run, nodes, i, j);
      CyclesHaveRivals(rating, nodes, PathOf(run, j + 1), p, q);
      SwitchNeedsInterval(rating, policy, run, j + 1);
    }
    if policy.rankUpgradeInterval > 0 && HaveRivals(rating, nodes) {
      var x, y :| Rivals(rating, nodes, x, y);
      RivalsAlternate(rating, nodes, x, y, k);
      SwitchesIffLadder(rating, policy, nodes, k);
      RivalsAlternate(rating, nodes, x, y, 2);
      var run := LadderRuns(rating, policy, nodes, Alternation(x.name, y.name, 2));
      BackAgain(run, x.name, y.name);
      assert Returns(rating, policy, nodes, run, 1, 3);
    }
  }

  lemma {:induction false} BackAgain(run: seq<Moment>, x: string, y: string)
    requires Climbs(run, Alternation(x, y, 2))
    ensures |run| == 4 && IsSwitch(run[1].decision) && IsSwitch(run[3].decision)
    ensures run[1].observation.active == x == run[3].decision.target
  {
    assert run[2 * 0 + 1].observation.active == Alternation(x, y, 2)[0];
    assert run[2 * 1 + 1].decision.target == Alternation(x, y, 2)[2];
  }

  // ----- Without cooldowns

  /** Some run from the initial state, with fixed measurements, switches `k` times. */
  ghost predicate CanSwitchFresh(rating: Rating, policy: Policy, nodes: seq<Node>, k: nat) {
    exists run: seq<Moment> ::
      && IsRun(rating, policy, run) && FixedMeasurements(run, nodes) && run != [] && run[0].before == INITIAL
      && Switches(run, |run|) >= k
  }

  /** Two names that outdo each other as the best other node: the best name of all and the best one besides it. */
  ghost predicate Swap(rating: Rating, nodes: seq<Node>, a: string, b: string) {
    && Usable(a) && Usable(b) && Outdone(rating, nodes, map[], a, b) && Outdone(rating, nodes, map[], b, a)
  }

  ghost predicate CanSwap(rating: Rating, nodes: seq<Node>) {
    exists a, b :: Swap(rating, nodes, a, b)
  }

  /** Every step of the path is to the best other node of all. */
  ghost predicate Ascent(rating: Rating, nodes: seq<Node>, path: seq<string>) {
    forall i: nat :: i + 1 < |path| ==> Usable(path[i]) && Outdone(rating, nodes, map[], path[i], path[i + 1])
  }

  lemma {:induction false} FreshSwitch(rating: Rating, policy: Policy, m: Moment, nodes: seq<Node>)
    requires Ran(rating, policy, m) && Calm(m, nodes) && m.before.cooldowns == map[]
    ensures m.after.cooldowns == map[]
    ensures IsSwitch(m.decision) ==> Outdone(rating, nodes, map[], m.observation.active, m.decision.target)
  {
    CalmCycle(rating, policy, m, nodes);
    hide Ran, Now, Better, Candidates;
    RankStep(rating, policy, m);
    if IsSwitch(m.decision) {
      assert Purge(m.before.cooldowns, m.At()) == map[];
      var best :| best in nodes && best.name == m.decision.target
                  && IsBest(rating, best, nodes, Primary, map[], m.observation.active)
                  && Above(rating, nodes, m.observation.active, best);
      BestIsHead(rating, nodes, map[], m.observation.active, best);
    }
  }

  lemma {:induction false} FreshRunsAscend(rating: Rating, policy: Policy, run: seq<Moment>, nodes: seq<Node>, i: nat)
    requires IsRun(rating, policy, run) && FixedMeasurements(run, nodes) && i < |run| && run[0].before == INITIAL
    ensures run[i].before.cooldowns == map[] && run[i].after.cooldowns == map[]
    ensures Ascent(rating, nodes, PathOf(run, i + 1))
  {
    hide Ran, Now, Outdone, Ladder, Ascent;
    if i == 0 {
      assert Ascent(rating, nodes, PathOf(run, 0)) by {
        StartAscends(rating, nodes, PathOf(run, 0));
      }
    }
    if i > 0 {
      FreshRunsAscend(rating, policy, run, nodes, i - 1);
      assert HandedOver(run, i - 1);
    }
    assert Calm(run[i], nodes) && Ran(rating, policy, run[i]);
    FreshSwitch(rating, policy, run[i], nodes);
    RunsClimb(rating, policy, run, nodes, i);
    var path := PathOf(run, i);
    if IsSwitch(run[i].decision) {
      AscentExtends(rating, nodes, path, run[i].decision.target);
    } else {
      assert PathOf(run, i + 1) == path;
    }
  }

  lemma {:induction false} StartAscends(rating: Rating, nodes: seq<Node>, path: seq<string>)
    requires |path| == 1
    ensures Ascent(rating, nodes, path)
  {
  }

  lemma {:induction false} AscentExtends(rating: Rating, nodes: seq<Node>, path: seq<string>, next: string)
    requires Ascent(rating, nodes, path) && path != [] && Usable(path[|path| - 1])
    requires Outdone(rating, nodes, map[], path[|path| - 1], next)
    ensures Ascent(rating, nodes, path + [next])
  {
    hide Outdone;
    var longer := path + [next];
    forall k: nat | k + 1 < |longer|
      ensures Usable(longer[k]) && Outdone(rating, nodes, map[], longer[k], longer[k + 1])
    {
      if k + 1 < |path| {
        assert Usable(path[k]) && Outdone(rating, nodes, map[], path[k], path[k + 1]);
      }
    }
  }

  /** Without cooldowns the third switch undoes the second, at the latest. */
  lemma {:induction false} ThirdUndoesSecond(rating: Rating, nodes: seq<Node>, a: string, b: string, c: string,
          d: string)
    requires Outdone(rating, nodes, map[], a, b) && Outdone(rating, nodes, map[], b, c)
    requires Outdone(rating, nodes, map[], c, d)
    ensures d == b
  {
    HeadIsBest(rating, nodes, Primary, map[], a);
    HeadIsBest(rating, nodes, Primary, map[], b);
    HeadIsBest(rating, nodes, Primary, map[], c);
    var x, y, z := Candidates(rating, nodes, Primary, map[], a)[0], Candidates(rating, nodes, Primary, map[], b)[0],
      Candidates(rating, nodes, Primary, map[], c)[0];
    hide Candidates;
    if c != a {
      assert !Better(rating, x, z);
      if d == a {
        assert !Better(rating, z, y) && !Better(rating, y, x);
        BetterIsStrictWeak(rating, z, x, y);
      }
      assert !Better(rating, z, x);
      Lex.Total(b, d);
    }
  }

  /** From the initial state a run switches at most twice, or as often as one likes, and it does the latter exactly if
      the two best names outdo each other (and rank checks are on). */
  lemma {:induction false} FreshSwitchesIffSwap(rating: Rating, policy: Policy, nodes: seq<Node>, k: nat)
    requires k >= 3
    ensures CanSwitchFresh(rating, policy, nodes, k) <==> policy.rankUpgradeInterval > 0 && CanSwap(rating, nodes)
  {
    hide IsRun, FixedMeasurements, Climbs, Swap, Outdone;
    if CanSwitchFresh(rating, policy, nodes, k) {
      var run: seq<Moment> :|
        && IsRun(rating, policy, run) && FixedMeasurements(run, nodes) && run != [] && run[0].before == INITIAL
        && Switches(run, |run|) >= k;
      SwitchNeedsInterval(rating, policy, run, |run|);
      FreshRunsAscend(rating, policy, run, nodes, |run| - 1);
      ThreeStepsSwap(rating, nodes, PathOf(run, |run|));
    }
    if policy.rankUpgradeInterval > 0 && CanSwap(rating, nodes) {
      var a, b :| Swap(rating, nodes, a, b);
      var run := SwapRuns(rating, policy, nodes, a, b, k);
    }
  }

  lemma {:induction false} ThreeStepsSwap(rating: Rating, nodes: seq<Node>, path: seq<string>)
    requires Ascent(rating, nodes, path) && |path| >= 4
    ensures CanSwap(rating, nodes)
  {
    hide Outdone;
    assert Usable(path[1]) && Outdone(rating, nodes, map[], path[1], path[1 + 1]);
    assert Usable(path[2]) && Outdone(rating, nodes, map[], path[2], path[2 + 1]);
    assert Outdone(rating, nodes, map[], path[0], path[0 + 1]);
    ThirdUndoesSecond(rating, nodes, path[0], path[1], path[2], path[3]);
    assert Swap(rating, nodes, path[1], path[2]);
  }

  /** A run from the initial state that goes back and forth `k` times. */
  lemma {:induction false} SwapRuns(rating: Rating, policy: Policy, nodes: seq<Node>, a: string, b: string, k: nat)
    returns (run: seq<Moment>)
    requires Swap(rating, nodes, a, b) && policy.rankUpgradeInterval > 0 && k > 0
    ensures IsRun(rating, policy, run) && FixedMeasurements(run, nodes) && Climbs(run, Alternation(a, b, k))
    ensures run != [] && run[0].before == INITIAL && Switches(run, |run|) == k
  {
    hide IsRun, FixedMeasurements, Climbs, Outdone;
    var path := Alternation(a, b, k);
    assert forall now :: Purge(map[], now) == map[];
    forall i: nat | i + 1 < |path|
      ensures Confirmed(rating, policy, nodes, map[], path[i], path[i + 1], 1000 + i * Lap(policy))
    {
    }
    run := Climb(rating, policy, nodes, map[], path, INITIAL, 0, 1000);
    ClimbLength(run, path);
    ClimbCounts(run, path, k);
  }

  ghost predicate CanReturnFresh(rating: Rating, policy: Policy, nodes: seq<Node>) {
    exists run: seq<Moment>, i: nat, j: nat :: Returns(rating, policy, nodes, run, i, j) && run[0].before == INITIAL
  }

  /** Nor does it return from the initial state unless these two names outdo each other. */
  lemma {:induction false} FreshReturnsIffSwap(rating: Rating, policy: Policy, nodes: seq<Node>)
    ensures CanReturnFresh(rating, policy, nodes) <==> policy.rankUpgradeInterval > 0 && CanSwap(rating, nodes)
  {
    hide IsRun, FixedMeasurements, Climbs, Outdone, Ladder;
    if CanReturnFresh(rating, policy, nodes) {
      var run: seq<Moment>, i: nat, j: nat :| Returns(rating, policy, nodes, run, i, j) && run[0].before == INITIAL;
      SwitchNeedsInterval(rating, policy, run, j + 1);
      FreshRunsAscend(rating, policy, run, nodes, j);
      var path := PathOf(run, j + 1);
      var p, q := PathIndices(rating, policy, run, nodes, i, j);
      if |path| >= 4 {
        ThreeStepsSwap(rating, nodes, path);
      } else {
        assert Usable(path[p]) && Outdone(rating, nodes, map[], path[p], path[p + 1]);
        OthersOutdo(rating, nodes, path[p], path[p + 1]);
        assert q == p + 2;
        assert Usable(path[p + 1]) && Outdone(rating, nodes, map[], path[p + 1], path[(p + 1) + 1]);
        assert Swap(rating, nodes, path[p], path[p + 1]);
      }
    }
    if policy.rankUpgradeInterval > 0 && CanSwap(rating, nodes) {
      var a, b :| Swap(rating, nodes, a, b);
      var run := SwapRuns(rating, policy, nodes, a, b, 2);
      BackAgain(run, a, b);
      assert Returns(rating, policy, nodes, run, 1, 3);
    }
  }

  lemma {:induction false} OthersOutdo(rating: Rating, nodes: seq<Node>, from: string, to: string)
    requires Outdone(rating, nodes, map[], from, to)
    ensures from != to
  {
    HeadIsBest(rating, nodes, Primary, map[], from);
  }

  // ----- Node lists of each kind

  /** A rating by round-trip delay alone, with three values. */
  ghost predicate ByDelay(rating: Rating) {
    forall m: Metrics :: rating(m) == if m.delayMs == 1 then 900.0 else if m.delayMs == 2 then 500.0 else 100.0
  }

  function Called(name: string, delayMs: int): Node {
    Node(name, Primary, true, Metrics(delayMs, 0.0, 0.0, 0, 0), 0)
  }

  lemma {:induction false} OnlyOther(rating: Rating, nodes: seq<Node>, from: string, best: Node)
    requires best in nodes && best.alive && best.pool.Primary? && best.name != from
    requires forall n <- nodes :: n.name != from ==> n.name == best.name && rating(n.metrics) <= rating(best.metrics)
    requires NodeByName(nodes, from).Some?
    requires rating(best.metrics) >= rating(NodeByName(nodes, from).value.metrics) + 75.0
    ensures Outdone(rating, nodes, map[], from, best.name)
  {
    Lex.Total(best.name, best.name);
    assert IsBest(rating, best, nodes, Primary, map[], from);
    BestIsHead(rating, nodes, map[], from, best);
  }

  /** Names must not be shared like this: of two nodes called "b" the first one is slow, and "a" lies between them. */
  lemma {:induction false} SharedNameSwaps(rating: Rating)
    requires ByDelay(rating)
    ensures Bounded(rating) && Swap(rating, [Called("b", 3), Called("b", 1), Called("a", 2)], "a", "b")
  {
    var nodes := [Called("b", 3), Called("b", 1), Called("a", 2)];
    assert nodes[1] in nodes && nodes[2] in nodes;
    assert nodes[1..][0].name == "b" && nodes[1..][1..][0] == nodes[2];
    assert NodeByName(nodes[1..][1..], "a") == Some(nodes[2]);
    assert NodeByName(nodes[1..], "a") == Some(nodes[2]);
    assert NodeByName(nodes, "a") == Some(nodes[2]) && NodeByName(nodes, "b") == Some(nodes[0]);
    OnlyOther(rating, nodes, "a", nodes[1]);
    OnlyOther(rating, nodes, "b", nodes[2]);
  }

  /** So a run from the initial state, with bounded scores, goes back and forth between "a" and "b" as often as one
      likes. */
  lemma {:induction false} SharedNameAlternates(rating: Rating, policy: Policy, k: nat)
      returns (run: seq<Moment>, nodes: seq<Node>)
    requires ByDelay(rating) && policy.rankUpgradeInterval > 0 && k >= 2
    ensures IsRun(rating, policy, run) && FixedMeasurements(run, nodes) && Bounded(rating)
    ensures |run| == 2 * k && run[0].before == INITIAL && Switches(run, |run|) == k
    ensures Returns(rating, policy, nodes, run, 1, 3)
  {
    hide IsRun, FixedMeasurements, Outdone, Swap;
    SharedNameSwaps(rating);
    nodes := [Called("b", 3), Called("b", 1), Called("a", 2)];
    run := SwapRuns(rating, policy, nodes, "a", "b", k);
    var path := Alternation("a", "b", k);
    assert path[0] == "a" && path[1] == "b" && path[2] == "a";
    assert run[2 * 0 + 1].observation.active == path[0] && IsSwitch(run[2 * 0 + 1].decision);
    assert run[2 * 1 + 1].decision.target == path[1 + 1] && IsSwitch(run[2 * 1 + 1].decision);
  }

  lemma {:induction false} QuickOutdoesSlow(rating: Rating)
    requires ByDelay(rating)
    ensures Bounded(rating) && UniqueNames([Called("a", 3), Called("b", 1)])
    ensures Outdone(rating, [Called("a", 3), Called("b", 1)], map[], "a", "b")
  {
    var nodes := [Called("a", 3), Called("b", 1)];
    assert nodes[0] in nodes && nodes[1] in nodes;
    assert NodeByName(nodes, "a") == Some(nodes[0]);
    OnlyOther(rating, nodes, "a", nodes[1]);
  }

  /** A run from the initial state that does switch: a better node that passed one check is taken at the second. */
  lemma {:induction false} SwitchHappens(rating: Rating) returns (run: seq<Moment>, nodes: seq<Node>)
    requires ByDelay(rating)
    ensures IsRun(rating, MANAGED_POLICY, run) && FixedMeasurements(run, nodes) && Bounded(rating) && UniqueNames(nodes)
    ensures |run| == 2 && run[0].before == INITIAL && IsSwitch(run[1].decision)
  {
    hide IsRun, FixedMeasurements, Outdone, UniqueNames, Bounded;
    nodes := [Called("a", 3), Called("b", 1)];
    QuickOutdoesSlow(rating);
    var path := ["a", "b"];
    assert forall now :: Purge(map[], now) == map[];
    forall i: nat | i + 1 < |path|
      ensures Confirmed(rating, MANAGED_POLICY, nodes, map[], path[i], path[i + 1], 1000 + i * Lap(MANAGED_POLICY))
    {
    }
    run := Climb(rating, MANAGED_POLICY, nodes, map[], path, INITIAL, 0, 1000);
    assert IsSwitch(run[2 * 0 + 1].decision);
  }

  ghost predicate UniqueNames(nodes: seq<Node>) {
    forall i, j :: 0 <= i < j < |nodes| ==> nodes[i].name != nodes[j].name
  }

  /** Unique names are enough. */
  lemma {:induction false} UniqueNamesAreBest(rating: Rating, nodes: seq<Node>)
    requires UniqueNames(nodes)
    ensures FirstsAreBest(rating, nodes)
  {
    forall n | n in nodes
      ensures NodeByName(nodes, n.name) == Some(n)
    {
      NameIsFound(nodes, n);
      var found := NodeByName(nodes, n.name).value;
      var i: nat, j: nat :| i < |nodes| && j < |nodes| && nodes[i] == n && nodes[j] == found;
    }
  }

  /** Fourteen nodes 75 points apart, and their names. */
  function Scale(): (nodes: seq<Node>)
    ensures |nodes| == 14 && forall i :: 0 <= i < 14 ==> nodes[i] == Called(Marks(i + 1), i)
  {
    seq(14, i requires 0 <= i < 14 => Called(Marks(i + 1), i))
  }

  function ScaleNames(): (names: seq<string>)
    ensures |names| == 14 && forall i :: 0 <= i < 14 ==> names[i] == Marks(i + 1)
  {
    seq(14, i requires 0 <= i < 14 => Marks(i + 1))
  }

  lemma {:induction false} ScaleIsUnique()
    ensures UniqueNames(Scale())
    ensures forall n <- Scale() :: 1 <= |n.name| <= 14 && n == Scale()[|n.name| - 1]
  {
    hide Scale;
    var nodes := Scale();
    forall i, j | 0 <= i < j < |nodes|
      ensures nodes[i].name != nodes[j].name
    {
      assert |nodes[i].name| != |nodes[j].name|;
    }
  }

  lemma {:induction false} ScaleFound(i: nat)
    requires i < 14
    ensures NodeByName(Scale(), Marks(i + 1)) == Some(Scale()[i])
  {
    ScaleIsUnique();
    hide Scale, NodeByName, UniqueNames;
    NameIsFound(Scale(), Scale()[i]);
  }

  /** None of the names stepped to before has a higher node. */
  lemma {:induction false} ScaleOrder(rating: Rating, i: nat, n: Node)
    requires forall m: Metrics :: 0 <= m.delayMs <= 13 ==> rating(m) == 75.0 * m.delayMs as real
    requires i + 1 < 14 && n in Scale() && n.name in ScaleNames()[1..i + 2]
    ensures !Better(rating, n, Scale()[i + 1])
  {
    ScaleIsUnique();
    hide Scale, ScaleNames, UniqueNames;
    var names, best := ScaleNames()[1..i + 2], Scale()[i + 1];
    var j: nat :| j < |names| && names[j] == n.name;
    assert |n.name| == j + 2;
    Lex.Total(n.name, best.name);
  }

  lemma {:induction false} ScaleRung(rating: Rating, i: nat)
    requires forall m: Metrics :: 0 <= m.delayMs <= 13 ==> rating(m) == 75.0 * m.delayMs as real
    requires i + 1 < 14
    ensures Rung(rating, Scale(), ScaleNames(), i)
  {
    hide Scale, ScaleNames, Marks, NodeByName, Better, Usable;
    var nodes, path := Scale(), ScaleNames();
    ScaleFound(i);
    MarksAreUsable(i + 1);
    var best := nodes[i + 1];
    assert rating(best.metrics) == rating(nodes[i].metrics) + 75.0;
    assert Above(rating, nodes, path[i], best);
    assert |path[i]| != |path[i + 1]|;
    forall n | n in nodes && n.name in path[1..i + 2]
      ensures !Better(rating, n, best)
    {
      ScaleOrder(rating, i, n);
    }
  }

  lemma {:induction false} MarksAreUsable(n: nat)
    requires n > 0
    ensures Usable(Marks(n))
  {
    assert Marks(n)[0] == '|';
  }

  /** Thirteen is reached. */
  lemma {:induction false} ThirteenIsReached(rating: Rating, policy: Policy)
    requires policy.rankUpgradeInterval > 0
    requires forall m: Metrics :: 0 <= m.delayMs <= 13 ==> rating(m) == 75.0 * m.delayMs as real
    ensures UniqueNames(Scale()) && CanSwitch(rating, policy, Scale(), 13)
  {
    hide Scale, ScaleNames, Rung;
    ScaleIsUnique();
    var path := ScaleNames();
    forall i: nat | i + 1 < |path|
      ensures Rung(rating, Scale(), path, i)
    {
      ScaleRung(rating, i);
    }
    assert Ladder(rating, Scale(), path);
    SwitchesIffLadder(rating, policy, Scale(), 13);
  }
}
