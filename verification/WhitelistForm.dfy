/** The canonical form every pool operation ends in. */
module WhitelistForm {
  import opened Wrappers
  import opened Seqs
  import opened StableSort
  import opened Whitelist
  import Lex

  ghost predicate UniqueIds(nodes: seq<Node>) {
    forall i, j :: 0 <= i < j < |nodes| ==> nodes[i].id != nodes[j].id
  }

  ghost predicate NamedIds(nodes: seq<Node>) {
    forall n <- nodes :: n.id != ""
  }

  ghost predicate Pooled(nodes: seq<Node>) {
    forall n <- nodes :: n.pool == POOL
  }

  ghost predicate RatedAndNumbered(env: Env, nodes: seq<Node>) {
    forall i :: 0 <= i < |nodes| ==> nodes[i].score == env.rating(nodes[i].metrics) && nodes[i].priority == i + 1
  }

  /** Unique non-empty IDs, sorted by (alive, score, ID), rated, numbered from one. */
  ghost predicate CanonicalNodes(env: Env, nodes: seq<Node>) {
    UniqueIds(nodes) && NamedIds(nodes) && Pooled(nodes) && Sorted(NodeOrder(), nodes) && RatedAndNumbered(env, nodes)
  }

  predicate Has(nodes: seq<Node>, id: string) {
    exists n <- nodes :: n.id == id
  }

  /** Canonical nodes, a selection inside the pool and a pending node that is the selected one. */
  ghost predicate Canonical(env: Env, s: State) {
    && CanonicalNodes(env, s.nodes)
    && (s.selectedNode == "" || Has(s.nodes, s.selectedNode))
    && (s.pendingNode == "" || s.pendingNode == s.selectedNode)
  }

  // ----- Finding

  lemma {:induction false} FindIs(nodes: seq<Node>, id: string)
    requires id != ""
    ensures Find(nodes, id).Some? <==> Has(nodes, id)
    ensures Find(nodes, id).Some? ==> Find(nodes, id).value in nodes && Find(nodes, id).value.id == id
  {
    if nodes != [] {
      FindIs(nodes[1..], id);
      assert nodes == [nodes[0]] + nodes[1..];
    }
  }

  lemma {:induction false} NodeOrderIsStrictWeak()
    ensures StrictWeak(NodeOrder())
  {
    forall x, y, z
      ensures NodeOrder()(x, y) ==> !NodeOrder()(y, x)
      ensures NodeOrder()(x, y) ==> NodeOrder()(x, z) || NodeOrder()(z, y)
    {
      Lex.Total(x.id, y.id);
      Lex.Total(x.id, z.id);
      Lex.Total(z.id, y.id);
      if Lex.Less(z.id, x.id) && Lex.Less(x.id, y.id) {
        Lex.Transitive(z.id, x.id, y.id);
      }
    }
  }

  lemma {:induction false} UniqueIdsSeparate(nodes: seq<Node>)
    requires UniqueIds(nodes)
    ensures Separates(NodeOrder(), nodes)
  {
    forall i, j | 0 <= i < j < |nodes|
      ensures NodeOrder()(nodes[i], nodes[j]) || NodeOrder()(nodes[j], nodes[i])
    {
      Lex.Total(nodes[i].id, nodes[j].id);
    }
  }

  // ----- Reindexing

  lemma {:induction false} UniqueFromSet(a: seq<Node>, b: seq<Node>)
    requires UniqueIds(a) && multiset(a) == multiset(b)
    ensures UniqueIds(b)
  {
    forall i, j | 0 <= i < j < |b|
      ensures b[i].id != b[j].id
    {
      if b[i].id == b[j].id {
        assert b[i] in multiset(b) && b[j] in multiset(b);
        assert b[i] in a && b[j] in a;
        var k :| 0 <= k < |a| && a[k] == b[i];
        var m :| 0 <= m < |a| && a[m] == b[j];
        TwiceIn(b, i, j);
        OnceIn(a, k);
      }
    }
  }

  lemma {:induction false} TwiceIn(s: seq<Node>, i: nat, j: nat)
    requires i < j < |s| && s[i] == s[j]
    ensures multiset(s)[s[i]] >= 2
  {
    assert s == s[..j] + [s[j]] + s[j + 1..];
    assert s[i] in s[..j];
    assert multiset(s) == multiset(s[..j]) + multiset{s[j]} + multiset(s[j + 1..]);
  }

  lemma {:induction false} OnceIn(s: seq<Node>, k: nat)
    requires UniqueIds(s) && k < |s|
    ensures multiset(s)[s[k]] == 1
  {
    assert s == s[..k] + [s[k]] + s[k + 1..];
    assert s[k] !in s[..k] && s[k] !in s[k + 1..];
    assert multiset(s) == multiset(s[..k]) + multiset{s[k]} + multiset(s[k + 1..]);
  }

  /** Reindexing distinct named nodes gives canonical nodes with the same bodies. */
  lemma {:induction false} ReindexCanonical(env: Env, nodes: seq<Node>)
    requires UniqueIds(nodes) && NamedIds(nodes) && Pooled(nodes)
    ensures CanonicalNodes(env, Reindex(env, nodes))
    ensures multiset(Bodies(env, Reindex(env, nodes))) == multiset(Bodies(env, nodes))
  {
    hide NodeBefore, StrictWeak;
    var bodies := Bodies(env, nodes);
    var sorted := Sort(NodeOrder(), bodies);
    NodeOrderIsStrictWeak();
    SortIsSorted(NodeOrder(), bodies);
    UniqueFromSet(bodies, sorted);
    SortedMembers(env, nodes);
    var r := Numbered(sorted);
    assert Bodies(env, r) == sorted;
    NumberedKeepsOrder(sorted);
  }

  lemma {:induction false} SortedMembers(env: Env, nodes: seq<Node>)
    requires multiset(Sort(NodeOrder(), Bodies(env, nodes))) == multiset(Bodies(env, nodes))
    requires NamedIds(nodes) && Pooled(nodes)
    ensures forall n <- Sort(NodeOrder(), Bodies(env, nodes)) ::
              n.id != "" && n.pool == POOL && n.score == env.rating(n.metrics) && n.priority == 0
  {
    var bodies := Bodies(env, nodes);
    forall n | n in Sort(NodeOrder(), bodies)
      ensures n.id != "" && n.pool == POOL && n.score == env.rating(n.metrics) && n.priority == 0
    {
      assert n in multiset(bodies);
      var i :| 0 <= i < |bodies| && bodies[i] == n;
      assert nodes[i] in nodes;
    }
  }

  lemma {:induction false} NumberedKeepsOrder(s: seq<Node>)
    requires Sorted(NodeOrder(), s)
    ensures Sorted(NodeOrder(), Numbered(s))
  {
    var r := Numbered(s);
    forall i, j | 0 <= i < j < |r|
      ensures !NodeOrder()(r[j], r[i])
    {
      assert NodeOrder()(s[j], s[i]) == NodeOrder()(r[j], r[i]);
    }
  }

  /** Canonical nodes with the same bodies are the same list. */
  lemma {:induction false} CanonicalUnique(env: Env, a: seq<Node>, b: seq<Node>)
    requires CanonicalNodes(env, a) && CanonicalNodes(env, b)
    requires multiset(Bodies(env, a)) == multiset(Bodies(env, b))
    ensures a == b
  {
    NodeOrderIsStrictWeak();
    BodiesOfCanonical(env, a);
    BodiesOfCanonical(env, b);
    UniqueIdsSeparate(Bodies(env, a));
    SortedUnique(NodeOrder(), Bodies(env, a), Bodies(env, b));
    forall i | 0 <= i < |a|
      ensures a[i] == b[i]
    {
      assert Bodies(env, a)[i] == Bodies(env, b)[i];
    }
  }

  lemma {:induction false} BodiesOfCanonical(env: Env, nodes: seq<Node>)
    requires CanonicalNodes(env, nodes)
    ensures Sorted(NodeOrder(), Bodies(env, nodes)) && UniqueIds(Bodies(env, nodes))
  {
    var r := Bodies(env, nodes);
    forall i, j | 0 <= i < j < |r|
      ensures !NodeOrder()(r[j], r[i])
    {
      assert NodeOrder()(nodes[j], nodes[i]) == NodeOrder()(r[j], r[i]);
    }
  }

  lemma {:induction false} ReindexFixed(env: Env, nodes: seq<Node>)
    requires CanonicalNodes(env, nodes)
    ensures Reindex(env, nodes) == nodes
  {
    ReindexCanonical(env, nodes);
    CanonicalUnique(env, Reindex(env, nodes), nodes);
  }

  // ----- Cleaning

  lemma {:induction false} CleanIsUnique(env: Env, nodes: seq<Node>)
    ensures UniqueIds(Clean(env, nodes)) && NamedIds(Clean(env, nodes)) && Pooled(Clean(env, nodes))
  {
    if nodes != [] {
      CleanIsUnique(env, nodes[..|nodes| - 1]);
    }
  }

  lemma {:induction false} CleanFixed(env: Env, nodes: seq<Node>)
    requires UniqueIds(nodes) && NamedIds(nodes) && Pooled(nodes)
    ensures Clean(env, nodes) == nodes
  {
    if nodes != [] {
      var n := |nodes| - 1;
      assert nodes == nodes[..n] + [nodes[n]];
      CleanFixed(env, nodes[..n]);
      assert nodes[n] in nodes;
    }
  }

  lemma {:induction false} ValidateCanonical(env: Env, s: State)
    requires CanonicalNodes(env, s.nodes)
    ensures Canonical(env, Validate(s))
  {
    if s.selectedNode != "" {
      FindIs(s.nodes, s.selectedNode);
    }
  }

  lemma {:induction false} ValidateFixed(env: Env, s: State)
    requires Canonical(env, s)
    ensures Validate(s) == s
  {
    if s.selectedNode != "" {
      FindIs(s.nodes, s.selectedNode);
    }
  }

  lemma {:induction false} NormalizeIsCanonical(env: Env, s: State)
    ensures Canonical(env, Normalize(env, s))
  {
    CleanIsUnique(env, s.nodes);
    ReindexCanonical(env, Clean(env, s.nodes));
    ValidateCanonical(env, s.(nodes := Reindex(env, Clean(env, s.nodes))));
  }

  /** Canonical states, and only they, are fixed points of normalizing. */
  lemma {:induction false} CanonicalIffFixed(env: Env, s: State)
    ensures Canonical(env, s) <==> Normalize(env, s) == s
  {
    NormalizeIsCanonical(env, s);
    if Canonical(env, s) {
      CleanFixed(env, s.nodes);
      ReindexFixed(env, s.nodes);
      ValidateFixed(env, s);
    }
  }

  // ----- Every operation

  lemma {:induction false} FilterKeepsUnique(keep: Node -> bool, nodes: seq<Node>)
    requires UniqueIds(nodes) && NamedIds(nodes) && Pooled(nodes)
    ensures UniqueIds(Filter(keep, nodes)) && NamedIds(Filter(keep, nodes)) && Pooled(Filter(keep, nodes))
  {
    FilterMembers(keep, nodes);
    if nodes != [] {
      var n := |nodes| - 1;
      assert nodes == nodes[..n] + [nodes[n]];
      FilterKeepsUnique(keep, nodes[..n]);
      FilterMembers(keep, nodes[..n]);
      forall m | m in Filter(keep, nodes[..n])
        ensures m.id != nodes[n].id
      {
        var i :| 0 <= i < n && nodes[i] == m;
      }
    }
  }

  lemma {:induction false} AdoptKeepsUnique(env: Env, pool: seq<Node>, sourceId: string, nodes: seq<Node>)
    requires UniqueIds(pool) && NamedIds(pool) && Pooled(pool)
    ensures UniqueIds(Adopt(env, pool, sourceId, nodes)) && NamedIds(Adopt(env, pool, sourceId, nodes))
            && Pooled(Adopt(env, pool, sourceId, nodes))
  {
    if nodes != [] {
      var n := |nodes| - 1;
      AdoptKeepsUnique(env, pool, sourceId, nodes[..n]);
      FindIs(Adopt(env, pool, sourceId, nodes[..n]), Adopted(env, sourceId, nodes[n]).id);
    }
  }

  lemma {:induction false} KeepCanonical(env: Env, s: State, keep: Node -> bool)
    requires Canonical(env, s)
    ensures Canonical(env, Keep(env, s, keep))
  {
    FilterKeepsUnique(keep, s.nodes);
    ReindexCanonical(env, Filter(keep, s.nodes));
    ValidateCanonical(env, s.(nodes := Reindex(env, Filter(keep, s.nodes))));
  }

  lemma {:induction false} AdmitCanonical(env: Env, s: State, sourceId: string, nodes: seq<Node>)
    requires Canonical(env, s)
    ensures Canonical(env, Admit(env, s, sourceId, nodes))
  {
    AdoptKeepsUnique(env, s.nodes, sourceId, nodes);
    ReindexCanonical(env, Adopt(env, s.nodes, sourceId, nodes));
    ValidateCanonical(env, s.(nodes := Reindex(env, Adopt(env, s.nodes, sourceId, nodes))));
  }

  lemma {:induction false} FirstAvailableIs(nodes: seq<Node>)
    ensures var f := FirstAvailable(nodes);
            if f.Some? then f.value in nodes && Available(f.value) else forall n <- nodes :: !Available(n)
  {
    if nodes != [] {
      FirstAvailableIs(nodes[1..]);
      assert nodes == [nodes[0]] + nodes[1..];
    }
  }

  lemma {:induction false} SelectCanonical(env: Env, s: State, markPending: bool)
    requires Canonical(env, s)
    ensures Canonical(env, SelectCandidate(s, markPending).0)
  {
    FirstAvailableIs(s.nodes);
    if s.selectedNode != "" {
      FindIs(s.nodes, s.selectedNode);
    }
  }

  lemma {:induction false} FailedCanonical(env: Env, s: State, nodeId: string)
    requires Canonical(env, s)
    ensures Canonical(env, Failed(env, s, nodeId).0)
  {
    hide SelectCandidate, CanonicalNodes;
    var id := if nodeId != "" then nodeId else if s.pendingNode != "" then s.pendingNode else s.selectedNode;
    FailedNodesCanonical(env, s, id);
    var kept := if id != "" then Filter(OtherNodes(id), s.nodes) else s.nodes;
    SelectCanonical(env, s.(nodes := Reindex(env, kept), selectedNode := "", pendingNode := ""), true);
  }

  lemma {:induction false} FailedNodesCanonical(env: Env, s: State, id: string)
    requires Canonical(env, s)
    ensures CanonicalNodes(env, Reindex(env, if id != "" then Filter(OtherNodes(id), s.nodes) else s.nodes))
  {
    FilterKeepsUnique(OtherNodes(id), s.nodes);
    ReindexCanonical(env, Filter(OtherNodes(id), s.nodes));
    ReindexFixed(env, s.nodes);
  }

  /** From any stored state, every command that succeeds ends in a canonical state. */
  lemma {:induction false} TransitionIsCanonical(env: Env, input: State, command: Command)
    requires Transition(env, input, command).Success?
    ensures Canonical(env, Transition(env, input, command).value.state)
  {
    hide Keep, Admit, Failed, SelectCandidate, Normalize, CanonicalNodes;
    var s := Normalize(env, input);
    NormalizeIsCanonical(env, input);
    match command
    case AddSource(sourceId, nodes) => AdmitCanonical(env, s, sourceId, nodes);
    case ReplaceSource(sourceId, nodes) =>
      KeepCanonical(env, s, OtherSources(sourceId));
      AdmitCanonical(env, Keep(env, s, OtherSources(sourceId)), sourceId, nodes);
    case RemoveSource(sourceId) => KeepCanonical(env, s, OtherSources(sourceId));
    case RemoveNode(nodeId) => KeepCanonical(env, s, OtherNodes(nodeId));
    case Active => SelectCanonical(env, s, false);
    case Request => SelectCanonical(env, s, true);
    case Choose(nodeId) =>
      if nodeId != "" {
        FindIs(s.nodes, nodeId);
      }
    case Fail(nodeId) => FailedCanonical(env, s, nodeId);
    case Clear => EmptyIsCanonical(env, s.generation + 1);
    case _ =>
  }

  lemma {:induction false} EmptyIsCanonical(env: Env, generation: int)
    ensures Canonical(env, State([], "", "", false, generation))
  {
  }

  /** Normalizing first changes nothing, so a stored state may stay as it was when nothing changed. */
  lemma {:induction false} TransitionSeesNormalForm(env: Env, input: State, command: Command)
    ensures Transition(env, Normalize(env, input), command) == Transition(env, input, command)
  {
    hide Normalize, Execute;
    NormalizeIsCanonical(env, input);
    CanonicalIffFixed(env, Normalize(env, input));
  }
}
