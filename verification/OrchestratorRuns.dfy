/** What the orchestrator guarantees over whole runs. */
module OrchestratorRuns {
  import opened Wrappers
  import opened Seqs
  import opened StableSort
  import opened Whitelist
  import opened WhitelistForm
  import opened Orchestrator

  ghost predicate AllAvailable(nodes: seq<Node>) {
    forall n <- nodes :: Available(n)
  }

  /** Reached from an empty pool: canonical, and every node can be connected to. */
  ghost predicate Ready(env: Env, s: State) {
    Canonical(env, s) && AllAvailable(s.nodes)
  }

  // ----- The pool keeps only available nodes

  lemma {:induction false} ReindexAvailable(env: Env, nodes: seq<Node>)
    requires AllAvailable(nodes)
    ensures AllAvailable(Reindex(env, nodes))
  {
    var bodies := Bodies(env, nodes);
    NodeOrderIsStrictWeak();
    SortIsSorted(NodeOrder(), bodies);
    var sorted := Sort(NodeOrder(), bodies);
    forall i | 0 <= i < |sorted|
      ensures Available(sorted[i])
    {
      assert sorted[i] in multiset(bodies);
      var k :| 0 <= k < |bodies| && bodies[k] == sorted[i];
      assert nodes[k] in nodes;
    }
  }

  lemma {:induction false} AdoptAvailable(env: Env, pool: seq<Node>, sourceId: string, nodes: seq<Node>)
    requires AllAvailable(pool)
    ensures AllAvailable(Adopt(env, pool, sourceId, nodes))
  {
    if nodes != [] {
      AdoptAvailable(env, pool, sourceId, nodes[..|nodes| - 1]);
    }
  }

  lemma {:induction false} KeepAvailable(env: Env, s: State, keep: Node -> bool)
    requires AllAvailable(s.nodes)
    ensures AllAvailable(Keep(env, s, keep).nodes)
  {
    FilterMembers(keep, s.nodes);
    ReindexAvailable(env, Filter(keep, s.nodes));
  }

  lemma {:induction false} AdmitAvailable(env: Env, s: State, sourceId: string, nodes: seq<Node>)
    requires AllAvailable(s.nodes)
    ensures AllAvailable(Admit(env, s, sourceId, nodes).nodes)
  {
    AdoptAvailable(env, s.nodes, sourceId, nodes);
    ReindexAvailable(env, Adopt(env, s.nodes, sourceId, nodes));
  }

  lemma {:induction false} FailedAvailable(env: Env, s: State, nodeId: string)
    requires AllAvailable(s.nodes)
    ensures AllAvailable(Failed(env, s, nodeId).0.nodes)
  {
    var id := if nodeId != "" then nodeId else if s.pendingNode != "" then s.pendingNode else s.selectedNode;
    FilterMembers(OtherNodes(id), s.nodes);
    ReindexAvailable(env, if id != "" then Filter(OtherNodes(id), s.nodes) else s.nodes);
  }

  lemma {:induction false} TransitionReady(env: Env, s: State, command: Command)
    requires Ready(env, s) && Transition(env, s, command).Success?
    ensures Ready(env, Transition(env, s, command).value.state)
  {
    hide Normalize, Keep, Admit, Failed, Canonical;
    CanonicalIffFixed(env, s);
    TransitionIsCanonical(env, s, command);
    match command
    case AddSource(sourceId, nodes) => AdmitAvailable(env, s, sourceId, nodes);
    case ReplaceSource(sourceId, nodes) =>
      KeepAvailable(env, s, OtherSources(sourceId));
      AdmitAvailable(env, Keep(env, s, OtherSources(sourceId)), sourceId, nodes);
    case RemoveSource(sourceId) => KeepAvailable(env, s, OtherSources(sourceId));
    case RemoveNode(nodeId) => KeepAvailable(env, s, OtherNodes(nodeId));
    case Fail(nodeId) => FailedAvailable(env, s, nodeId);
    case _ =>
  }

  // ----- Offers

  /** The node is in the pool, can be connected to, and is both selected and pending. */
  ghost predicate Offered(s: State, candidate: Option<Node>) {
    && candidate.Some? && candidate.value in s.nodes && Available(candidate.value)
    && s.selectedNode == candidate.value.id && s.pendingNode == candidate.value.id
  }

  /** Asking for a node offers one, unless the pool is empty. */
  lemma {:induction false} RequestOffers(env: Env, s: State)
    requires Ready(env, s)
    ensures var (t, candidate) := SelectCandidate(s, true);
            if s.nodes == [] then candidate == None && t.nodes == [] else Offered(t, candidate)
  {
    FirstAvailableIs(s.nodes);
    if s.pendingNode != "" {
      FindIs(s.nodes, s.pendingNode);
    }
    if s.selectedNode != "" {
      FindIs(s.nodes, s.selectedNode);
    }
    if s.nodes != [] {
      assert s.nodes[0] in s.nodes;
    }
  }

  lemma {:induction false} RequestReply(env: Env, s: State)
    requires Ready(env, s)
    ensures var (t, candidate) := (PoolAfter(env, s, Request), Candidate(env, s, Request));
            if s.nodes == [] then candidate == None else Offered(t, candidate)
  {
    hide Normalize, Canonical, SelectCandidate;
    CanonicalIffFixed(env, s);
    RequestOffers(env, s);
  }

  lemma {:induction false} FailReply(env: Env, s: State, nodeId: string)
    requires Ready(env, s)
    ensures Candidate(env, s, Fail(nodeId)).Some? ==>
              Offered(PoolAfter(env, s, Fail(nodeId)), Candidate(env, s, Fail(nodeId)))
    ensures Candidate(env, s, Fail(nodeId)).None? ==> PoolAfter(env, s, Fail(nodeId)).nodes == []
  {
    hide Normalize, SelectCandidate, CanonicalNodes;
    CanonicalIffFixed(env, s);
    var id := if nodeId != "" then nodeId else if s.pendingNode != "" then s.pendingNode else s.selectedNode;
    var kept := if id != "" then Filter(OtherNodes(id), s.nodes) else s.nodes;
    var t := s.(nodes := Reindex(env, kept), selectedNode := "", pendingNode := "");
    FailedNodesCanonical(env, s, id);
    FilterMembers(OtherNodes(id), s.nodes);
    ReindexAvailable(env, kept);
    RequestOffers(env, t);
    SelectKeepsNodes(t, true);
  }

  lemma {:induction false} SelectKeepsNodes(s: State, markPending: bool)
    ensures SelectCandidate(s, markPending).0.nodes == s.nodes
  {
  }

  /** One event: the pool stays ready and a connect action carries an offered node. */
  lemma {:induction false} NextOffers(env: Env, s: Session, event: Event)
    requires Ready(env, s.whitelist) && Next(env, s, event).Success?
    ensures var (t, action) := Next(env, s, event).value;
            Ready(env, t.whitelist) && (action.Connect? ==> Offered(t.whitelist, action.candidate))
  {
    hide Transition, Ready, Offered, PoolAfter, Candidate;
    match event
    case Disable => PoolStaysReady(env, s.whitelist, Deactivate);
    case Probed(_) =>
      PoolStaysReady(env, s.whitelist, Begin);
      PoolStaysReady(env, s.whitelist, Deactivate);
    case SourceAdded(sourceId, nodes) => ArrivalOffers(env, s, AddSource(sourceId, nodes));
    case SourceReplaced(sourceId, nodes) => ArrivalOffers(env, s, ReplaceSource(sourceId, nodes));
    case Connected(nodeId) => PoolStaysReady(env, s.whitelist, Confirm(nodeId));
    case ConnectFailed(nodeId) =>
      PoolStaysReady(env, s.whitelist, Fail(nodeId));
      FailReply(env, s.whitelist, nodeId);
    case ScanComplete =>
      PoolStaysReady(env, s.whitelist, Complete);
      PoolStaysReady(env, PoolAfter(env, s.whitelist, Complete), Request);
      RequestReply(env, PoolAfter(env, s.whitelist, Complete));
    case _ =>
  }

  lemma {:induction false} PoolStaysReady(env: Env, s: State, command: Command)
    requires Ready(env, s)
    ensures Ready(env, PoolAfter(env, s, command))
  {
    hide Transition, Ready;
    if Transition(env, s, command).Success? {
      TransitionReady(env, s, command);
    }
  }

  lemma {:induction false} ArrivalOffers(env: Env, s: Session, command: Command)
    requires Ready(env, s.whitelist) && Arrived(env, s, command).Success?
    ensures var (t, action) := Arrived(env, s, command).value;
            Ready(env, t.whitelist) && (action.Connect? ==> Offered(t.whitelist, action.candidate))
  {
    hide Transition, Ready, Offered, PoolAfter, Candidate;
    TransitionReady(env, s.whitelist, command);
    var pool := Transition(env, s.whitelist, command).value.state;
    PoolStaysReady(env, pool, Request);
    RequestReply(env, pool);
  }

  /** The session after a run; refused events change nothing. */
  function After(env: Env, events: seq<Event>): Session {
    if events == [] then EMPTY_SESSION
    else
      var s := After(env, events[..|events| - 1]);
      var r := Next(env, s, events[|events| - 1]);
      if r.Success? then r.value.0 else s
  }

  lemma {:induction false} RunsStayReady(env: Env, events: seq<Event>)
    ensures Ready(env, After(env, events).whitelist)
  {
    hide Next, Ready;
    if events == [] {
      EmptyIsReady(env);
    } else {
      var front, event := events[..|events| - 1], events[|events| - 1];
      RunsStayReady(env, front);
      if Next(env, After(env, front), event).Success? {
        NextOffers(env, After(env, front), event);
      }
    }
  }

  lemma {:induction false} EmptyIsReady(env: Env)
    ensures Ready(env, EMPTY)
  {
    EmptyIsCanonical(env, 0);
  }

  /** In every run from the empty state a connect action carries an available pool node that is
      both selected and pending. */
  lemma {:induction false} ConnectsAreOffers(env: Env, events: seq<Event>, event: Event)
    requires Next(env, After(env, events), event).Success?
    ensures var (t, action) := Next(env, After(env, events), event).value;
            action.Connect? ==> Offered(t.whitelist, action.candidate)
  {
    hide Next, Ready, Offered;
    RunsStayReady(env, events);
    NextOffers(env, After(env, events), event);
  }

  // ----- Working through the pool

  function Ids(nodes: seq<Node>): (ids: seq<string>)
    ensures |ids| == |nodes|
  {
    seq(|nodes|, i requires 0 <= i < |nodes| => nodes[i].id)
  }

  /** The other nodes, in canonical order. */
  function Others(nodes: seq<Node>, id: string): seq<string> {
    Ids(Filter(OtherNodes(id), nodes))
  }

  lemma {:induction false} FilterSorted(keep: Node -> bool, nodes: seq<Node>)
    requires Sorted(NodeOrder(), nodes)
    ensures Sorted(NodeOrder(), Filter(keep, nodes))
  {
    if nodes != [] {
      var n := |nodes| - 1;
      FilterSorted(keep, nodes[..n]);
      FilterMembers(keep, nodes[..n]);
      var front := Filter(keep, nodes[..n]);
      forall i | 0 <= i < |front|
        ensures !NodeOrder()(nodes[n], front[i])
      {
        assert front[i] in front;
        var k :| 0 <= k < n && nodes[k] == front[i];
      }
    }
  }

  /** Reindexing what is left of a canonical list keeps its order. */
  lemma {:induction false} ReindexKeepsIds(env: Env, nodes: seq<Node>)
    requires Sorted(NodeOrder(), nodes) && forall n <- nodes :: n.score == env.rating(n.metrics)
    ensures Ids(Reindex(env, nodes)) == Ids(nodes)
  {
    var bodies := Bodies(env, nodes);
    forall i, j | 0 <= i < j < |bodies|
      ensures !NodeOrder()(bodies[j], bodies[i])
    {
      assert NodeOrder()(nodes[j], nodes[i]) == NodeOrder()(bodies[j], bodies[i]);
    }
    SortedStays(NodeOrder(), bodies);
  }

  lemma {:induction false} FilterNothing(id: string, nodes: seq<Node>)
    requires forall n <- nodes :: n.id != id
    ensures Filter(OtherNodes(id), nodes) == nodes
  {
    if nodes != [] {
      var n := |nodes| - 1;
      assert nodes == nodes[..n] + [nodes[n]];
      assert nodes[n] in nodes;
      FilterNothing(id, nodes[..n]);
    }
  }

  /** What is left after giving up the offered node: its successor is the head of the others. */
  lemma {:induction false} FailOffersHead(env: Env, s: State, nodeId: string)
    requires Ready(env, s) && s.pendingNode != "" && (nodeId == "" || nodeId == s.pendingNode)
    ensures var t, rest := PoolAfter(env, s, Fail(nodeId)), Others(s.nodes, s.pendingNode);
            && Ids(t.nodes) == rest
            && Candidate(env, s, Fail(nodeId)).None? == (rest == [])
            && (rest != [] ==> t.pendingNode == rest[0] && Candidate(env, s, Fail(nodeId)).value.id == rest[0])
  {
    hide Normalize, CanonicalNodes;
    CanonicalIffFixed(env, s);
    var kept := Filter(OtherNodes(s.pendingNode), s.nodes);
    RestKeepsIds(env, s);
    var nodes := Reindex(env, kept);
    FilterMembers(OtherNodes(s.pendingNode), s.nodes);
    ReindexAvailable(env, kept);
    if nodes != [] {
      assert nodes[0] in nodes;
      assert Ids(nodes)[0] == nodes[0].id;
    }
  }

  lemma {:induction false} RestKeepsIds(env: Env, s: State)
    requires Ready(env, s)
    ensures Ids(Reindex(env, Filter(OtherNodes(s.pendingNode), s.nodes))) == Others(s.nodes, s.pendingNode)
  {
    FilterSorted(OtherNodes(s.pendingNode), s.nodes);
    FilterMembers(OtherNodes(s.pendingNode), s.nodes);
    ReindexKeepsIds(env, Filter(OtherNodes(s.pendingNode), s.nodes));
  }

  /** The session after `k` failures of the node offered at the time. */
  function AfterFailures(env: Env, s: Session, k: nat): Session {
    if k == 0 then s
    else
      var t := AfterFailures(env, s, k - 1);
      Next(env, t, ConnectFailed(t.whitelist.pendingNode)).value.0
  }

  function FailureAction(env: Env, s: Session, k: nat): Action {
    var t := AfterFailures(env, s, k);
    Next(env, t, ConnectFailed(t.whitelist.pendingNode)).value.1
  }

  /** Dropping the head of distinct IDs leaves the tail. */
  lemma {:induction false} OthersOfHead(nodes: seq<Node>)
    requires nodes != [] && UniqueIds(nodes)
    ensures Others(nodes, nodes[0].id) == Ids(nodes)[1..]
  {
    hide Filter;
    FilterNothing(nodes[0].id, nodes[1..]);
    FilterDropsHead(OtherNodes(nodes[0].id), nodes);
    assert Ids(nodes[1..]) == Ids(nodes)[1..];
  }

  lemma {:induction false} FilterDropsHead(keep: Node -> bool, nodes: seq<Node>)
    requires nodes != [] && !keep(nodes[0])
    ensures Filter(keep, nodes) == Filter(keep, nodes[1..])
  {
    var n := |nodes| - 1;
    if n > 0 {
      FilterDropsHead(keep, nodes[..n]);
      assert nodes[..n][1..] == nodes[1..][..n - 1];
    }
  }

  /** Failing the offered node again and again offers each of the others once, in canonical order, ... */
  lemma {:induction false} FailuresOfferEachOnce(env: Env, s: Session, k: nat)
    requires Ready(env, s.whitelist) && s.whitelist.pendingNode != ""
    requires k < |Others(s.whitelist.nodes, s.whitelist.pendingNode)|
    ensures var rest, action := Others(s.whitelist.nodes, s.whitelist.pendingNode), FailureAction(env, s, k);
            action.Connect? && action.candidate.Some? && action.candidate.value.id == rest[k]
    ensures var t := AfterFailures(env, s, k + 1).whitelist;
            var rest := Others(s.whitelist.nodes, s.whitelist.pendingNode);
            Ready(env, t) && Ids(t.nodes) == rest[k..] && t.pendingNode == rest[k]
  {
    hide Transition, Canonical, AllAvailable, PoolAfter, Candidate, Others;
    var t := AfterFailures(env, s, k);
    var rest := Others(s.whitelist.nodes, s.whitelist.pendingNode);
    if k > 0 {
      FailuresOfferEachOnce(env, s, k - 1);
      HeadOf(env, t.whitelist, rest[k - 1..]);
    }
    FailOffersHead(env, t.whitelist, t.whitelist.pendingNode);
    PoolStaysReady(env, t.whitelist, Fail(t.whitelist.pendingNode));
  }

  lemma {:induction false} HeadOf(env: Env, s: State, ids: seq<string>)
    requires Ready(env, s) && Ids(s.nodes) == ids && ids != [] && s.pendingNode == ids[0]
    ensures Others(s.nodes, s.pendingNode) == ids[1..] && s.pendingNode != ""
  {
    assert s.nodes[0] in s.nodes;
    OthersOfHead(s.nodes);
  }

  /** ... and then, with the pool empty, asks for a full scan. */
  lemma {:induction false} FailuresEndInScan(env: Env, s: Session)
    requires Ready(env, s.whitelist) && s.whitelist.pendingNode != ""
    ensures var n := |Others(s.whitelist.nodes, s.whitelist.pendingNode)|;
            FailureAction(env, s, n).ScanAllCached? && AfterFailures(env, s, n + 1).whitelist.nodes == []
  {
    hide Transition, Canonical, AllAvailable, PoolAfter, Candidate, Others;
    var rest := Others(s.whitelist.nodes, s.whitelist.pendingNode);
    var n := |rest|;
    var t := AfterFailures(env, s, n);
    if n > 0 {
      FailuresOfferEachOnce(env, s, n - 1);
      HeadOf(env, t.whitelist, rest[n - 1..]);
    }
    FailOffersHead(env, t.whitelist, t.whitelist.pendingNode);
  }

  /** Each failure of the offered node shrinks the pool by exactly that node. */
  lemma {:induction false} FailureShrinksPool(env: Env, s: State)
    requires Ready(env, s) && s.pendingNode != ""
    ensures |PoolAfter(env, s, Fail(s.pendingNode)).nodes| == |s.nodes| - 1
  {
    hide Transition, PoolAfter, Candidate, Others;
    FailOffersHead(env, s, s.pendingNode);
    OthersCount(env, s);
  }

  lemma {:induction false} OthersCount(env: Env, s: State)
    requires Ready(env, s) && s.pendingNode != ""
    ensures |Others(s.nodes, s.pendingNode)| == |s.nodes| - 1
  {
    var i :| 0 <= i < |s.nodes| && s.nodes[i].id == s.pendingNode;
    CountOthers(s.nodes, i);
  }

  lemma {:induction false} CountOthers(nodes: seq<Node>, i: nat)
    requires UniqueIds(nodes) && i < |nodes|
    ensures |Filter(OtherNodes(nodes[i].id), nodes)| == |nodes| - 1
  {
    var n := |nodes| - 1;
    if i < n {
      CountOthers(nodes[..n], i);
    } else {
      assert forall m <- nodes[..n] :: m.id != nodes[n].id;
      FilterNothing(nodes[n].id, nodes[..n]);
    }
  }
}
