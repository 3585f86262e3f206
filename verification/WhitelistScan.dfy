/** Applying the result of a scan, source by source. */
module WhitelistScan {
  import opened Wrappers
  import opened Seqs
  import opened Whitelist
  import opened WhitelistForm

  /** One step of applying a result: drop an excluded source, or replace a completed one. */
  datatype ScanOp = Drop(source: string) | Refill(source: string, nodes: seq<Node>)

  function AsCommand(op: ScanOp): Command {
    match op
    case Drop(source) => RemoveSource(source)
    case Refill(source, nodes) => ReplaceSource(source, nodes)
  }

  /** The state after an operation; an operation without a source is refused and changes nothing. */
  function ApplyOp(env: Env, s: State, op: ScanOp): State {
    var r := Transition(env, s, AsCommand(op));
    if r.Success? then r.value.state else s
  }

  function ApplyOps(env: Env, s: State, ops: seq<ScanOp>): State {
    if ops == [] then s else ApplyOp(env, ApplyOps(env, s, ops[..|ops| - 1]), ops[|ops| - 1])
  }

  // ----- The pool as a set of bodies

  ghost function BodySet(env: Env, nodes: seq<Node>): set<Node> {
    set n | n in nodes :: Body(env, n)
  }

  /** The bodies an operation brings in. */
  ghost function NewBodies(env: Env, op: ScanOp): set<Node> {
    match op
    case Drop(_) => {}
    case Refill(source, nodes) => BodySet(env, Adopt(env, [], source, nodes))
  }

  lemma {:induction false} BodiesOnce(env: Env, nodes: seq<Node>, x: Node)
    requires UniqueIds(nodes)
    ensures multiset(Bodies(env, nodes))[x] == if x in BodySet(env, nodes) then 1 else 0
  {
    var bodies := Bodies(env, nodes);
    if x in BodySet(env, nodes) {
      var n :| n in nodes && Body(env, n) == x;
      var i :| 0 <= i < |nodes| && nodes[i] == n;
      assert bodies[i] == x;
      OnceIn(bodies, i);
    } else {
      assert x !in bodies;
    }
  }

  /** Canonical nodes are determined by their bodies as a set. */
  lemma {:induction false} SameBodies(env: Env, a: seq<Node>, b: seq<Node>)
    requires CanonicalNodes(env, a) && CanonicalNodes(env, b) && BodySet(env, a) == BodySet(env, b)
    ensures a == b
  {
    forall x: Node
      ensures multiset(Bodies(env, a))[x] == multiset(Bodies(env, b))[x]
    {
      BodiesOnce(env, a, x);
      BodiesOnce(env, b, x);
    }
    assert multiset(Bodies(env, a)) == multiset(Bodies(env, b));
    CanonicalUnique(env, a, b);
  }

  lemma {:induction false} BodiesMember(env: Env, nodes: seq<Node>, x: Node)
    ensures x in multiset(Bodies(env, nodes)) <==> x in BodySet(env, nodes)
  {
    var bodies := Bodies(env, nodes);
    if x in multiset(bodies) {
      var i :| 0 <= i < |bodies| && bodies[i] == x;
      assert nodes[i] in nodes;
    }
    if x in BodySet(env, nodes) {
      var n :| n in nodes && Body(env, n) == x;
      var i :| 0 <= i < |nodes| && nodes[i] == n;
      assert bodies[i] == x;
    }
  }

  lemma {:induction false} ReindexBodies(env: Env, nodes: seq<Node>)
    requires UniqueIds(nodes) && NamedIds(nodes) && Pooled(nodes)
    ensures BodySet(env, Reindex(env, nodes)) == BodySet(env, nodes)
  {
    hide Reindex, UniqueIds, NamedIds, Pooled, BodySet;
    ReindexCanonical(env, nodes);
    forall x: Node
      ensures x in BodySet(env, Reindex(env, nodes)) <==> x in BodySet(env, nodes)
    {
      BodiesMember(env, nodes, x);
      BodiesMember(env, Reindex(env, nodes), x);
    }
  }

  lemma {:induction false} FilterBodies(env: Env, nodes: seq<Node>, source: string)
    ensures BodySet(env, Filter(OtherSources(source), nodes)) ==
              set b | b in BodySet(env, nodes) && b.sourceId != source
  {
    FilterMembers(OtherSources(source), nodes);
    var kept := Filter(OtherSources(source), nodes);
    forall b | b in BodySet(env, nodes) && b.sourceId != source
      ensures b in BodySet(env, kept)
    {
      var n :| n in nodes && Body(env, n) == b;
      assert n in kept;
    }
  }

  /** With no ID in common, adopting adds exactly the bodies of the incoming nodes. */
  lemma {:induction false} AdoptBodies(env: Env, pool: seq<Node>, source: string, nodes: seq<Node>)
    requires forall n <- Adopt(env, [], source, nodes) :: !Has(pool, n.id)
    ensures Adopt(env, pool, source, nodes) == pool + Adopt(env, [], source, nodes)
  {
    if nodes != [] {
      var front, last := nodes[..|nodes| - 1], nodes[|nodes| - 1];
      var fresh0 := Adopt(env, [], source, front);
      assert forall n <- fresh0 :: n in Adopt(env, [], source, nodes);
      AdoptBodies(env, pool, source, front);
      var n := Adopted(env, source, last);
      FindIs(fresh0, n.id);
      FindIs(pool + fresh0, n.id);
      if Available(last) && Find(fresh0, n.id).None? {
        assert n in Adopt(env, [], source, nodes);
        assert Adopt(env, pool, source, nodes) == pool + fresh0 + [n];
      } else if Has(fresh0, n.id) {
        var m :| m in fresh0 && m.id == n.id;
        assert m in pool + fresh0;
      }
    }
  }

  lemma {:induction false} AdoptedShape(env: Env, source: string, nodes: seq<Node>)
    ensures forall n <- Adopt(env, [], source, nodes) ::
              n.sourceId == source && n.id != "" && n.pool == POOL && Available(n)
  {
    if nodes != [] {
      AdoptedShape(env, source, nodes[..|nodes| - 1]);
    }
  }

  // ----- Per-source IDs

  /** `owner` tells the source of every ID in the pool ... */
  ghost predicate Owns(owner: string -> string, nodes: seq<Node>) {
    forall n <- nodes :: owner(n.id) == n.sourceId
  }

  /** ... and of every ID an operation brings in. */
  ghost predicate OwnsOp(env: Env, owner: string -> string, op: ScanOp) {
    op.source != "" && (op.Refill? ==> forall n <- Adopt(env, [], op.source, op.nodes) :: owner(n.id) == op.source)
  }

  function Surviving(owner: string -> string, id: string, touched: set<string>): string {
    if id != "" && owner(id) in touched then "" else id
  }

  /** The state after dropping or replacing one source, without reference to order. */
  ghost predicate Outcome(env: Env, owner: string -> string, s: State, touched: set<string>, added: set<Node>,
          t: State) {
    && Canonical(env, t) && Owns(owner, t.nodes)
    && BodySet(env, t.nodes) == (set b | b in BodySet(env, s.nodes) && b.sourceId !in touched) + added
    && t.selectedNode == Surviving(owner, s.selectedNode, touched)
    && t.pendingNode == Surviving(owner, s.pendingNode, touched)
    && t.scanActive == s.scanActive && t.generation == s.generation
  }

  lemma {:induction false} OwnsBodies(env: Env, owner: string -> string, nodes: seq<Node>)
    ensures Owns(owner, nodes) <==> forall b <- BodySet(env, nodes) :: owner(b.id) == b.sourceId
  {
    forall n | n in nodes
      ensures Body(env, n) in BodySet(env, nodes)
    {
    }
    if forall b <- BodySet(env, nodes) :: owner(b.id) == b.sourceId {
      forall n | n in nodes
        ensures owner(n.id) == n.sourceId
      {
        assert Body(env, n) in BodySet(env, nodes);
      }
    }
  }

  lemma {:induction false} HasBody(env: Env, nodes: seq<Node>, id: string)
    ensures Has(nodes, id) <==> exists b <- BodySet(env, nodes) :: b.id == id
  {
    if Has(nodes, id) {
      var n :| n in nodes && n.id == id;
      assert Body(env, n) in BodySet(env, nodes);
    }
  }

  lemma {:induction false} KeepSource(env: Env, owner: string -> string, s: State, source: string)
    requires Canonical(env, s) && Owns(owner, s.nodes)
    ensures Outcome(env, owner, s, {source}, {}, Keep(env, s, OtherSources(source)))
  {
    hide CanonicalNodes, Reindex, BodySet, UniqueIds, NamedIds, Pooled;
    var kept := Filter(OtherSources(source), s.nodes);
    KeepSourceNodes(env, s, source);
    KeepCanonical(env, s, OtherSources(source));
    FilterBodies(env, s.nodes, source);
    var t := Keep(env, s, OtherSources(source));
    assert BodySet(env, t.nodes) == set b | b in BodySet(env, s.nodes) && b.sourceId != source;
    OwnsBodies(env, owner, s.nodes);
    OwnsBodies(env, owner, t.nodes);
    HasBody(env, s.nodes, s.selectedNode);
    HasBody(env, t.nodes, s.selectedNode);
    if s.selectedNode != "" {
      FindIs(t.nodes, s.selectedNode);
      var b :| b in BodySet(env, s.nodes) && b.id == s.selectedNode;
    }
  }

  lemma {:induction false} KeepSourceNodes(env: Env, s: State, source: string)
    requires Canonical(env, s)
    ensures BodySet(env, Reindex(env, Filter(OtherSources(source), s.nodes))) == BodySet(env,
            Filter(OtherSources(source), s.nodes))
  {
    FilterKeepsUnique(OtherSources(source), s.nodes);
    ReindexBodies(env, Filter(OtherSources(source), s.nodes));
  }

  lemma {:induction false} NoCollision(env: Env, owner: string -> string, s: State, op: ScanOp)
    requires Owns(owner, s.nodes) && OwnsOp(env, owner, op) && op.Refill?
    requires forall n <- s.nodes :: n.sourceId != op.source
    ensures forall n <- Adopt(env, [], op.source, op.nodes) :: !Has(s.nodes, n.id)
  {
    forall n | n in Adopt(env, [], op.source, op.nodes)
      ensures !Has(s.nodes, n.id)
    {
      assert forall m <- s.nodes :: m.id == n.id ==> owner(m.id) == m.sourceId;
    }
  }

  /** Admitting a source that has no node in the pool adds its bodies and keeps the selection. */
  lemma {:induction false} AdmitSource(env: Env, owner: string -> string, s: State, op: ScanOp)
    requires Canonical(env, s) && Owns(owner, s.nodes) && OwnsOp(env, owner, op) && op.Refill?
    requires forall n <- s.nodes :: n.sourceId != op.source
    ensures Outcome(env, owner, s, {}, NewBodies(env, op), Admit(env, s, op.source, op.nodes))
  {
    hide CanonicalNodes, Reindex, BodySet, UniqueIds, NamedIds, Pooled, Adopt;
    NoCollision(env, owner, s, op);
    AdoptBodies(env, s.nodes, op.source, op.nodes);
    AdmitNodes(env, s, op);
    AdmitCanonical(env, s, op.source, op.nodes);
    var t := Admit(env, s, op.source, op.nodes);
    AdmitOwned(env, owner, s, op);
    HasBody(env, s.nodes, s.selectedNode);
    HasBody(env, t.nodes, s.selectedNode);
    if s.selectedNode != "" {
      FindIs(t.nodes, s.selectedNode);
    }
    assert (set b | b in BodySet(env, s.nodes) && b.sourceId !in {}) == BodySet(env, s.nodes);
  }

  lemma {:induction false} AdmitNodes(env: Env, s: State, op: ScanOp)
    requires Canonical(env, s) && op.Refill?
    requires Adopt(env, s.nodes, op.source, op.nodes) == s.nodes + Adopt(env, [], op.source, op.nodes)
    ensures BodySet(env, Reindex(env, Adopt(env, s.nodes, op.source, op.nodes))) == BodySet(env,
            s.nodes) + NewBodies(env, op)
  {
    AdoptKeepsUnique(env, s.nodes, op.source, op.nodes);
    ReindexBodies(env, Adopt(env, s.nodes, op.source, op.nodes));
    BodySetConcat(env, s.nodes, Adopt(env, [], op.source, op.nodes));
  }

  lemma {:induction false} BodySetConcat(env: Env, a: seq<Node>, b: seq<Node>)
    ensures BodySet(env, a + b) == BodySet(env, a) + BodySet(env, b)
  {
    forall x | x in BodySet(env, a) + BodySet(env, b)
      ensures x in BodySet(env, a + b)
    {
      var n :| (n in a || n in b) && Body(env, n) == x;
      assert n in a + b;
    }
  }

  lemma {:induction false} AdmitOwned(env: Env, owner: string -> string, s: State, op: ScanOp)
    requires Owns(owner, s.nodes) && OwnsOp(env, owner, op) && op.Refill?
    requires BodySet(env, Admit(env, s, op.source, op.nodes).nodes) == BodySet(env, s.nodes) + NewBodies(env, op)
    ensures Owns(owner, Admit(env, s, op.source, op.nodes).nodes)
  {
    hide Reindex, BodySet;
    AdoptedShape(env, op.source, op.nodes);
    OwnsBodies(env, owner, s.nodes);
    assert Owns(owner, Adopt(env, [], op.source, op.nodes));
    OwnsBodies(env, owner, Adopt(env, [], op.source, op.nodes));
    OwnsBodies(env, owner, Admit(env, s, op.source, op.nodes).nodes);
  }

  /** What one operation does to a canonical state whose IDs are per source. */
  lemma {:induction false} OpOutcome(env: Env, owner: string -> string, s: State, op: ScanOp)
    requires Canonical(env, s) && Owns(owner, s.nodes) && OwnsOp(env, owner, op)
    ensures Outcome(env, owner, s, {op.source}, NewBodies(env, op), ApplyOp(env, s, op))
  {
    hide CanonicalNodes, Keep, Admit, Normalize, BodySet, Owns;
    CanonicalIffFixed(env, s);
    KeepSource(env, owner, s, op.source);
    if op.Refill? {
      var kept := Keep(env, s, OtherSources(op.source));
      SourceGone(env, s, kept, op.source);
      AdmitSource(env, owner, kept, op);
    }
  }

  lemma {:induction false} SourceGone(env: Env, s: State, t: State, source: string)
    requires BodySet(env, t.nodes) == (set b | b in BodySet(env, s.nodes) && b.sourceId !in {source}) + {}
    ensures forall n <- t.nodes :: n.sourceId != source
  {
    forall n | n in t.nodes
      ensures n.sourceId != source
    {
      assert Body(env, n) in BodySet(env, t.nodes);
    }
  }

  // ----- A whole result

  ghost predicate DistinctSources(ops: seq<ScanOp>) {
    forall i, j :: 0 <= i < j < |ops| ==> ops[i].source != ops[j].source
  }

  ghost function Touched(ops: seq<ScanOp>): set<string> {
    set op | op in ops :: op.source
  }

  ghost function Added(env: Env, ops: seq<ScanOp>): set<Node> {
    set op, b | op in ops && b in NewBodies(env, op) :: b
  }

  lemma {:induction false} NewBodiesSource(env: Env, op: ScanOp)
    ensures forall b <- NewBodies(env, op) :: b.sourceId == op.source
  {
    if op.Refill? {
      AdoptedShape(env, op.source, op.nodes);
    }
  }

  /** The closed form: untouched sources keep their nodes, touched ones have the new nodes, and a
      selection survives exactly if its source was not touched. */
  lemma {:induction false} OpsOutcome(env: Env, owner: string -> string, s: State, ops: seq<ScanOp>)
    requires Canonical(env, s) && Owns(owner, s.nodes)
    requires DistinctSources(ops) && forall op <- ops :: OwnsOp(env, owner, op)
    ensures Outcome(env, owner, s, Touched(ops), Added(env, ops), ApplyOps(env, s, ops))
  {
    hide Canonical, BodySet, Owns, ApplyOp, NewBodies, OwnsOp;
    if ops == [] {
      assert (set b | b in BodySet(env, s.nodes) && b.sourceId !in Touched(ops)) == BodySet(env, s.nodes);
    } else {
      var n := |ops| - 1;
      var front, op := ops[..n], ops[n];
      assert ops == front + [op];
      assert forall o <- front :: o in ops;
      OpsOutcome(env, owner, s, front);
      OpOutcome(env, owner, ApplyOps(env, s, front), op);
      Compose(env, owner, s, front, op);
    }
  }

  lemma {:induction false} Compose(env: Env, owner: string -> string, s: State, front: seq<ScanOp>, op: ScanOp)
    requires DistinctSources(front + [op])
    requires Outcome(env, owner, s, Touched(front), Added(env, front), ApplyOps(env, s, front))
    requires Outcome(env, owner, ApplyOps(env, s, front), {op.source}, NewBodies(env, op),
             ApplyOps(env, s, front + [op]))
    ensures Outcome(env, owner, s, Touched(front + [op]), Added(env, front + [op]), ApplyOps(env, s, front + [op]))
  {
    hide Canonical, BodySet, Owns, ApplyOps, NewBodies;
    var ops := front + [op];
    assert forall o :: o in ops <==> o in front || o == op;
    assert Touched(ops) == Touched(front) + {op.source};
    assert Added(env, ops) == Added(env, front) + NewBodies(env, op);
    forall b | b in Added(env, front)
      ensures b.sourceId != op.source
    {
      var o :| o in front && b in NewBodies(env, o);
      NewBodiesSource(env, o);
      var i :| 0 <= i < |front| && front[i] == o;
      assert ops[i] == o && ops[|front|] == op;
    }
  }

  /** Applying the same operations in any order ends in the identical state. */
  lemma {:induction false} ScanOrderIsIrrelevant(env: Env, owner: string -> string, s: State, ops: seq<ScanOp>,
          ops': seq<ScanOp>)
    requires Canonical(env, s) && Owns(owner, s.nodes)
    requires DistinctSources(ops) && (forall op <- ops :: OwnsOp(env, owner, op))
    requires DistinctSources(ops') && multiset(ops) == multiset(ops')
    ensures ApplyOps(env, s, ops) == ApplyOps(env, s, ops')
  {
    hide BodySet, Owns, ApplyOps, NewBodies, OwnsOp, CanonicalNodes;
    forall op
      ensures op in ops <==> op in ops'
    {
      assert op in ops <==> op in multiset(ops);
      assert op in ops' <==> op in multiset(ops');
    }
    assert Touched(ops) == Touched(ops') && Added(env, ops) == Added(env, ops');
    OpsOutcome(env, owner, s, ops);
    OpsOutcome(env, owner, s, ops');
    SameBodies(env, ApplyOps(env, s, ops).nodes, ApplyOps(env, s, ops').nodes);
  }

  /** Every source the result does not mention keeps exactly its nodes, up to their place in the list. */
  lemma {:induction false} UntouchedSourcesKeepNodes(env: Env, owner: string -> string, s: State, ops: seq<ScanOp>,
          source: string)
    requires Canonical(env, s) && Owns(owner, s.nodes) && source !in Touched(ops)
    requires DistinctSources(ops) && forall op <- ops :: OwnsOp(env, owner, op)
    ensures (set b | b in BodySet(env, ApplyOps(env, s, ops).nodes) && b.sourceId == source)
         == (set b | b in BodySet(env, s.nodes) && b.sourceId == source)
  {
    hide BodySet, Owns, ApplyOps, NewBodies, OwnsOp, CanonicalNodes;
    OpsOutcome(env, owner, s, ops);
    forall b | b in Added(env, ops)
      ensures b.sourceId != source
    {
      var o :| o in ops && b in NewBodies(env, o);
      NewBodiesSource(env, o);
    }
  }

  // ----- IDs made by the pool are per source

  /** The source inside an ID made by `StableID`, whose digest has 16 digits. */
  function SourceOf(id: string): string {
    if |id| >= 27 then id[10..|id| - 17] else ""
  }

  lemma {:induction false} StableIdTellsSource(env: Env, sourceId: string, proxy: Option<Proxy>)
    requires |env.digest(sourceId, proxy)| == 16
    ensures SourceOf(StableID(env, sourceId, proxy)) == sourceId
  {
    var prefix, digest := POOL + ":", env.digest(sourceId, proxy);
    assert |prefix| == 10;
    assert StableID(env, sourceId, proxy) == prefix + sourceId + (":" + digest);
  }

  /** Results without own IDs, as the scan reports them, are owned through `SourceOf`. */
  lemma {:induction false} ScannedNodesAreOwned(env: Env, source: string, nodes: seq<Node>)
    requires forall src, proxy :: |env.digest(src, proxy)| == 16
    requires forall n <- nodes :: n.id == ""
    ensures forall n <- Adopt(env, [], source, nodes) :: SourceOf(n.id) == source
  {
    if nodes != [] {
      var n := |nodes| - 1;
      assert forall m <- nodes[..n] :: m in nodes;
      ScannedNodesAreOwned(env, source, nodes[..n]);
      assert nodes[n] in nodes;
      StableIdTellsSource(env, source, nodes[n].proxy);
    }
  }
}
