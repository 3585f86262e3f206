/** Ranking servers and choosing one by operating mode. */
module ServerChoice {
  import opened Wrappers
  import R = Rank
  import StableSort

  datatype Node = Node(id: string, pool: string, alive: bool, metrics: R.Metrics)

  datatype Placed = Placed(node: Node, score: real, position: nat)

  predicate Ahead(a: Placed, b: Placed) {
    if a.node.alive != b.node.alive then a.node.alive
    else if a.score != b.score then a.score > b.score
    else a.position < b.position
  }

  function Places(rating: R.Rating, nodes: seq<Node>): (r: seq<Placed>)
    ensures |r| == |nodes|
  {
    seq(|nodes|, i requires 0 <= i < |nodes| => Placed(nodes[i], rating(nodes[i].metrics), i))
  }

  function Ranking(rating: R.Rating, nodes: seq<Node>): seq<Placed> {
    StableSort.Sort(Ahead, Places(rating, nodes))
  }

  lemma {:induction false} AheadIsStrictWeak()
    ensures StableSort.StrictWeak(Ahead)
  {
  }

  /** The ranking holds every node once, at its place in the input. */
  lemma {:induction false} RankingMembers(rating: R.Rating, nodes: seq<Node>)
    ensures StableSort.Sorted(Ahead, Ranking(rating, nodes)) && |Ranking(rating, nodes)| == |nodes|
    ensures forall x :: x in Ranking(rating, nodes) <==>
                          x.position < |nodes|
                              && x == Placed(nodes[x.position], rating(nodes[x.position].metrics), x.position)
  {
    AheadIsStrictWeak();
    var places := Places(rating, nodes);
    StableSort.SortIsSorted(Ahead, places);
    forall x
      ensures x in Ranking(rating, nodes) <==>
                x.position < |nodes| && x == Placed(nodes[x.position], rating(nodes[x.position].metrics), x.position)
    {
      assert x in multiset(Ranking(rating, nodes)) <==> x in multiset(places);
      if x.position < |nodes| {
        assert places[x.position] in places;
      }
    }
  }

  method Rank(rating: R.Rating, nodes: seq<Node>) returns (r: seq<Placed>)
    ensures r == Ranking(rating, nodes)
  {
    r := [];
    for i := 0 to |nodes|
      invariant r == Places(rating, nodes)[..i]
    {
      r := r + [Placed(nodes[i], rating(nodes[i].metrics), i)];
    }
    assert r == Places(rating, nodes);
    r := StableSort.Sort(Ahead, r);
  }

  /** The best of the usable nodes of `pool`, the earliest among equals. */
  ghost predicate IsBest(rating: R.Rating, nodes: seq<Node>, pool: string, k: nat) {
    && k < |nodes| && nodes[k].alive && nodes[k].pool == pool
    && forall j :: 0 <= j < |nodes| && nodes[j].alive && nodes[j].pool == pool ==>
         rating(nodes[j].metrics) < rating(nodes[k].metrics)
         || (rating(nodes[j].metrics) == rating(nodes[k].metrics) && k <= j)
  }

  ghost predicate NoneUsable(nodes: seq<Node>, pool: string) {
    forall n <- nodes :: n.alive ==> n.pool != pool
  }

  /** Scanning the ranking for the first usable node of a pool finds the best one. */
  method FirstOf(rating: R.Rating, nodes: seq<Node>, ranked: seq<Placed>, pool: string) returns (r: Option<Placed>)
    requires ranked == Ranking(rating, nodes)
    ensures r.None? <==> NoneUsable(nodes, pool)
    ensures r.Some? ==> IsBest(rating, nodes, pool, r.value.position)
                        && r.value.node == nodes[r.value.position]
  {
    RankingMembers(rating, nodes);
    hide Ranking;
    for i := 0 to |ranked|
      invariant forall j :: 0 <= j < i ==> !(ranked[j].node.alive && ranked[j].node.pool == pool)
    {
      if ranked[i].node.alive && ranked[i].node.pool == pool {
        FirstIsBest(rating, nodes, ranked, pool, i);
        return Some(ranked[i]);
      }
    }
    forall n | n in nodes && n.alive
      ensures n.pool != pool
    {
      var k: nat :| k < |nodes| && nodes[k] == n;
      assert Placed(nodes[k], rating(nodes[k].metrics), k) in ranked;
    }
    r := None;
  }

  lemma {:induction false} FirstIsBest(rating: R.Rating, nodes: seq<Node>, ranked: seq<Placed>, pool: string, i: nat)
    requires ranked == Ranking(rating, nodes) && i < |ranked|
    requires ranked[i].node.alive && ranked[i].node.pool == pool
    requires forall j :: 0 <= j < i ==> !(ranked[j].node.alive && ranked[j].node.pool == pool)
    ensures IsBest(rating, nodes, pool, ranked[i].position) && ranked[i].node == nodes[ranked[i].position]
    ensures !NoneUsable(nodes, pool)
  {
    RankingMembers(rating, nodes);
    assert ranked[i] in ranked;
    var best := ranked[i].position;
    assert nodes[best] in nodes;
    forall j | 0 <= j < |nodes| && nodes[j].alive && nodes[j].pool == pool
      ensures rating(nodes[j].metrics) < rating(nodes[best].metrics)
              || (rating(nodes[j].metrics) == rating(nodes[best].metrics) && best <= j)
    {
      var x := Placed(nodes[j], rating(nodes[j].metrics), j);
      assert x in ranked;
      var k: nat :| k < |ranked| && ranked[k] == x;
      assert k >= i;
      assert k > i ==> !Ahead(ranked[k], ranked[i]);
    }
  }

  /** Emergency mode never leaves the emergency pool; otherwise the emergency pool is used only when no
      primary node is alive. */
  method Select(rating: R.Rating, nodes: seq<Node>, mode: string) returns (r: Option<Placed>)
    ensures mode == "emergency" ==>
              && (r.None? <==> NoneUsable(nodes, "emergency"))
              && (r.Some? ==> IsBest(rating, nodes, "emergency", r.value.position))
    ensures mode != "emergency" ==>
              && (r.None? <==> NoneUsable(nodes, "primary") && NoneUsable(nodes, "emergency"))
              && (r.Some? && !NoneUsable(nodes, "primary") ==> IsBest(rating, nodes, "primary", r.value.position))
              && (r.Some? && NoneUsable(nodes, "primary") ==> IsBest(rating, nodes, "emergency", r.value.position))
    ensures r.Some? ==> r.value.position < |nodes| && r.value.node == nodes[r.value.position]
  {
    hide Ranking;
    var ranked := Rank(rating, nodes);
    if mode == "emergency" {
      r := FirstOf(rating, nodes, ranked, "emergency");
      return;
    }
    r := FirstOf(rating, nodes, ranked, "primary");
    if r.None? {
      r := FirstOf(rating, nodes, ranked, "emergency");
    }
  }
}
