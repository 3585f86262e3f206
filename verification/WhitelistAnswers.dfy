/** What every pool command answers and leaves, told from the state it finds. */
module WhitelistAnswers {
  import opened Wrappers
  import opened Seqs
  import opened Whitelist
  import opened WhitelistForm
  import opened WhitelistScan
  import Lex

  /** A node one can connect to. */
  predicate Usable(n: Node) {
    n.alive || n.activationRequired
  }

  // ----- The order of the list

  /** In a canonical list verified nodes come first, then higher scores, then smaller IDs. */
  lemma {:induction false} CanonicalOrder(env: Env, s: State, i: nat, j: nat)
    requires Canonical(env, s) && i < j < |s.nodes|
    ensures var a, b := s.nodes[i], s.nodes[j];
            && (b.alive ==> a.alive)
            && (a.alive == b.alive ==> env.rating(a.metrics) >= env.rating(b.metrics))
            && (a.alive == b.alive && env.rating(a.metrics) == env.rating(b.metrics) ==> Lex.Less(a.id, b.id))
  {
    assert !NodeOrder()(s.nodes[j], s.nodes[i]);
    Lex.Total(s.nodes[i].id, s.nodes[j].id);
  }

  // ----- Asking for a node

  /** The node at `i` is the pending one; else the selected one, if usable; else the first usable one. */
  ghost predicate IsAsked(s: State, i: nat)
    requires i < |s.nodes|
  {
    if s.pendingNode != "" then s.nodes[i].id == s.pendingNode
    else if exists n <- s.nodes :: n.id == s.selectedNode && Usable(n) then s.nodes[i].id == s.selectedNode
    else Usable(s.nodes[i]) && forall k :: 0 <= k < i ==> !Usable(s.nodes[k])
  }

  lemma {:induction false} OneOfId(nodes: seq<Node>, a: Node, b: Node)
    requires UniqueIds(nodes) && a in nodes && b in nodes && a.id == b.id
    ensures a == b
  {
    var i :| 0 <= i < |nodes| && nodes[i] == a;
    var j :| 0 <= j < |nodes| && nodes[j] == b;
  }

  lemma {:induction false} FirstAvailableAt(nodes: seq<Node>) returns (k: nat)
    requires FirstAvailable(nodes).Some?
    ensures k < |nodes| && nodes[k] == FirstAvailable(nodes).value && Usable(nodes[k])
    ensures forall i :: 0 <= i < k ==> !Usable(nodes[i])
  {
    if Available(nodes[0]) {
      k := 0;
    } else {
      k := FirstAvailableAt(nodes[1..]);
      assert forall i :: 0 <= i < k ==> nodes[1..][i] == nodes[i + 1];
      k := k + 1;
    }
  }

  /** Asking answers that node, selects it and, for a request, marks it pending; it answers none exactly if no node is
      pending and none is usable. */
  lemma {:induction false} RequestAnswers(env: Env, s: State, request: bool) returns (i: nat)
    requires Canonical(env, s)
    ensures var r := Transition(env, s, if request then Request else Active);
            && r.Success?
            && (r.value.candidate.None? <==> s.pendingNode == "" && forall n <- s.nodes :: !Usable(n))
            && (r.value.candidate.None? ==> r.value.state == s.(selectedNode := ""))
            && (r.value.candidate.Some? ==>
                  && i < |s.nodes| && IsAsked(s, i) && r.value.candidate.value == s.nodes[i]
                  && r.value.state == s.(selectedNode := s.nodes[i].id,
                       pendingNode := if request then s.nodes[i].id else s.pendingNode))
            && (r.value.changed <==> r.value.state != s)
  {
    hide Normalize, CanonicalNodes;
    CanonicalIffFixed(env, s);
    i := 0;
    FirstAvailableIs(s.nodes);
    if s.pendingNode != "" {
      FindIs(s.nodes, s.pendingNode);
      var n := Find(s.nodes, s.pendingNode).value;
      i :| 0 <= i < |s.nodes| && s.nodes[i] == n;
    } else {
      if s.selectedNode != "" {
        FindIs(s.nodes, s.selectedNode);
      }
      var current := Find(s.nodes, s.selectedNode);
      if current.Some? && Usable(current.value) {
        i :| 0 <= i < |s.nodes| && s.nodes[i] == current.value;
      } else if FirstAvailable(s.nodes).Some? {
        i := FirstAvailableAt(s.nodes);
        SelectedIsUnusable(env, s);
      }
    }
  }

  lemma {:induction false} SelectedIsUnusable(env: Env, s: State)
    requires Canonical(env, s)
    requires Find(s.nodes, s.selectedNode).None? || !Usable(Find(s.nodes, s.selectedNode).value)
    ensures !exists n <- s.nodes :: n.id == s.selectedNode && Usable(n)
  {
    if n :| n in s.nodes && n.id == s.selectedNode && Usable(n) {
      FindIs(s.nodes, s.selectedNode);
      OneOfId(s.nodes, n, Find(s.nodes, s.selectedNode).value);
    }
  }

  /** Choosing is refused without an ID and for a node that is missing or unusable; otherwise the node is selected, and
      nothing is pending. */
  lemma {:induction false} ChooseAnswers(env: Env, s: State, id: string)
    requires Canonical(env, s)
    ensures var r := Transition(env, s, Choose(id));
            && (r.Success? <==> exists n <- s.nodes :: n.id == id && Usable(n))
            && (r.Failure? ==> r.error == if id == "" then "node_id_required" else "node_unavailable")
            && (r.Success? ==>
                  && r.value.state == s.(selectedNode := id, pendingNode := "")
                  && r.value.candidate.Some? && r.value.candidate.value in s.nodes && r.value.candidate.value.id == id)
  {
    hide Normalize;
    CanonicalIffFixed(env, s);
    if id != "" {
      FindIs(s.nodes, id);
      if n :| n in s.nodes && n.id == id && Usable(n) {
        OneOfId(s.nodes, n, Find(s.nodes, id).value);
      }
    }
  }

  /** What was chosen is what is asked for next, and it stays selected. */
  lemma {:induction false} ChosenIsAsked(env: Env, s: State, id: string, request: bool)
    requires Canonical(env, s) && Transition(env, s, Choose(id)).Success?
    ensures var t := Transition(env, s, Choose(id)).value.state;
            var r := Transition(env, t, if request then Request else Active);
            && r.Success? && r.value.candidate.Some? && r.value.candidate.value.id == id
            && r.value.state == t.(pendingNode := if request then id else "") && t.selectedNode == id
  {
    hide Transition, IsAsked;
    ChooseAnswers(env, s, id);
    var t := s.(selectedNode := id, pendingNode := "");
    var n :| n in s.nodes && n.id == id && Usable(n);
    assert Canonical(env, t) by {
      assert Has(t.nodes, id);
    }
    var i := RequestAnswers(env, t, request);
    assert IsAsked(t, i) ==> t.nodes[i].id == id by {
      AskedIsSelected(t, i, n);
    }
  }

  lemma {:induction false} AskedIsSelected(s: State, i: nat, n: Node)
    requires i < |s.nodes| && IsAsked(s, i) && s.pendingNode == "" && n in s.nodes && n.id == s.selectedNode
    requires Usable(n)
    ensures s.nodes[i].id == s.selectedNode
  {
  }

  /** Confirming the selected node, by its ID or as the pending one, ends its being pending and answers it; any other
      confirmation changes nothing and answers none. */
  lemma {:induction false} ConfirmAnswers(env: Env, s: State, nodeId: string)
    requires Canonical(env, s)
    ensures var r := Transition(env, s, Confirm(nodeId));
            var id := if nodeId == "" then s.pendingNode else nodeId;
            && r.Success?
            && (id != "" && id == s.selectedNode ==>
                  && r.value.state == s.(pendingNode := "")
                  && r.value.candidate.Some? && r.value.candidate.value in s.nodes && r.value.candidate.value.id == id)
            && (id == "" || id != s.selectedNode ==> r.value.state == s && r.value.candidate.None?)
  {
    hide Normalize, CanonicalNodes;
    CanonicalIffFixed(env, s);
    if s.selectedNode != "" {
      FindIs(s.nodes, s.selectedNode);
    }
  }

  // ----- Scans

  /** What the commands around a scan leave: its flag, its number, and no selection at its end. */
  lemma {:induction false} ScanAnswers(env: Env, s: State)
    requires Canonical(env, s)
    ensures Transition(env, s, Begin) ==
            Success(Reply(s.(scanActive := true, generation := s.generation + 1), None, true))
    ensures Transition(env, s, Complete) == Success(Reply(s.(scanActive := false), None, s.scanActive))
    ensures var t := s.(selectedNode := "", pendingNode := "", scanActive := false);
            Transition(env, s, Deactivate) == Success(Reply(t, None, s != t))
    ensures Transition(env, s, Clear) == Success(Reply(State([], "", "", false, s.generation + 1), None, true))
  {
    hide Normalize, CanonicalNodes;
    CanonicalIffFixed(env, s);
  }

  /** Exactly these commands are refused, and why. */
  lemma {:induction false} RefusedIff(env: Env, s: State, command: Command)
    requires Canonical(env, s)
    ensures var r := Transition(env, s, command);
            r.Failure? <==>
              || ((command.AddSource? || command.ReplaceSource? || command.RemoveSource?) && command.sourceId == "")
              || (command.RemoveNode? && command.nodeId == "") || command.UnknownOperation?
              || (command.Choose? && !exists n <- s.nodes :: n.id == command.nodeId && Usable(n))
    ensures var r := Transition(env, s, command);
            r.Failure? ==>
              r.error == if command.AddSource? || command.ReplaceSource? || command.RemoveSource?
                  then "source_id_required"
                         else if command.UnknownOperation? then "unknown_whitelist_operation"
                         else if command.nodeId == "" then "node_id_required" else "node_unavailable"
  {
    if command.Choose? {
      ChooseAnswers(env, s, command.nodeId);
    }
    hide Normalize, Canonical;
  }

  // ----- Which nodes are left

  /** The selection after the nodes became `nodes`: kept as far as it is among them. */
  ghost predicate KeepsSelection(s: State, t: State) {
    && t.selectedNode == (if Has(t.nodes, s.selectedNode) then s.selectedNode else "")
    && t.pendingNode == (if Has(t.nodes, s.pendingNode) then s.pendingNode else "")
    && t.scanActive == s.scanActive && t.generation == s.generation
  }

  lemma {:induction false} ValidateKeeps(env: Env, s: State, nodes: seq<Node>)
    requires Canonical(env, s) && NamedIds(nodes)
    ensures KeepsSelection(s, Validate(s.(nodes := nodes))) && Validate(s.(nodes := nodes)).nodes == nodes
  {
    if s.selectedNode != "" {
      FindIs(nodes, s.selectedNode);
    }
  }

  lemma {:induction false} KeepBodies(env: Env, s: State, keep: Node -> bool)
    requires Canonical(env, s) && forall n :: keep(Body(env, n)) == keep(n)
    ensures BodySet(env, Keep(env, s, keep).nodes) == set b | b in BodySet(env, s.nodes) && keep(b)
    ensures KeepsSelection(s, Keep(env, s, keep))
  {
    var kept := Filter(keep, s.nodes);
    FilterKeepsUnique(keep, s.nodes);
    FilterMembers(keep, s.nodes);
    ReindexBodies(env, kept);
    ReindexCanonical(env, kept);
    ValidateKeeps(env, s, Reindex(env, kept));
    forall b | b in BodySet(env, s.nodes) && keep(b)
      ensures b in BodySet(env, kept)
    {
      var n :| n in s.nodes && Body(env, n) == b;
      assert n in kept;
    }
  }

  /** Removing a source or a node leaves exactly the others; the selection stays if its node does. */
  lemma {:induction false} RemovalAnswers(env: Env, s: State, name: string)
    requires Canonical(env, s) && name != ""
    ensures var r := Transition(env, s, RemoveSource(name));
            && r.Success? && r.value.candidate.None? && KeepsSelection(s, r.value.state)
            && BodySet(env, r.value.state.nodes) == set b | b in BodySet(env, s.nodes) && b.sourceId != name
    ensures var r := Transition(env, s, RemoveNode(name));
            && r.Success? && r.value.candidate.None? && KeepsSelection(s, r.value.state)
            && BodySet(env, r.value.state.nodes) == set b | b in BodySet(env, s.nodes) && b.id != name
  {
    hide Normalize, Canonical, Keep, BodySet, KeepsSelection;
    CanonicalIffFixed(env, s);
    KeepBodies(env, s, OtherSources(name));
    KeepBodies(env, s, OtherNodes(name));
  }

  /** The ID a node of a source enters the pool with. */
  function EntryId(env: Env, source: string, n: Node): string {
    if n.id == "" then StableID(env, source, n.proxy) else n.id
  }

  /** The node at `i` enters: usable, and neither the pool nor a usable node before it has its ID. */
  ghost predicate Enters(env: Env, pool: seq<Node>, source: string, nodes: seq<Node>, i: nat)
    requires i < |nodes|
  {
    && Usable(nodes[i]) && !Has(pool, EntryId(env, source, nodes[i]))
    && forall k :: 0 <= k < i && Usable(nodes[k]) ==> EntryId(env, source, nodes[k]) != EntryId(env, source, nodes[i])
  }

  /** The nodes as they enter. */
  ghost function Entering(env: Env, pool: seq<Node>, source: string, nodes: seq<Node>): set<Node> {
    set i: nat | i < |nodes| && Enters(env, pool, source, nodes, i) ::
      nodes[i].(id := EntryId(env, source, nodes[i]), sourceId := source, pool := "whitelist")
  }

  lemma {:induction false} EnteringStep(env: Env, pool: seq<Node>, source: string, nodes: seq<Node>)
    requires nodes != []
    ensures var n := |nodes| - 1;
            Entering(env, pool, source, nodes) ==
            Entering(env, pool, source, nodes[..n])
            + if Enters(env, pool, source, nodes, n)
              then {nodes[n].(id := EntryId(env, source, nodes[n]), sourceId := source, pool := "whitelist")} else {}
  {
    var n := |nodes| - 1;
    var front := nodes[..n];
    assert forall i :: 0 <= i < n ==> (Enters(env, pool, source, nodes, i) <==> Enters(env, pool, source, front, i));
    forall x | x in Entering(env, pool, source, front)
      ensures x in Entering(env, pool, source, nodes)
    {
      var i: nat :| i < n && Enters(env, pool, source, front, i)
                    && x == front[i].(id := EntryId(env, source, front[i]), sourceId := source, pool := "whitelist");
      assert Enters(env, pool, source, nodes, i);
    }
  }

  /** What adopting one more node does: it is added exactly if it enters. */
  lemma {:induction false} AdoptStep(env: Env, pool: seq<Node>, source: string, nodes: seq<Node>)
    requires nodes != []
    requires var front := nodes[..|nodes| - 1];
             forall id :: Has(Adopt(env, pool, source, front), id) <==>
               Has(pool, id) || exists i: nat :: i < |front| && Usable(front[i]) && EntryId(env, source, front[i]) == id
    ensures var n := |nodes| - 1;
            Adopt(env, pool, source, nodes) ==
            Adopt(env, pool, source, nodes[..n])
            + if Enters(env, pool, source, nodes, n)
              then [nodes[n].(id := EntryId(env, source, nodes[n]), sourceId := source, pool := "whitelist")] else []
  {
    var n := |nodes| - 1;
    var front, id := nodes[..n], EntryId(env, source, nodes[n]);
    var adopted := Adopt(env, pool, source, front);
    FindIs(adopted, id);
    assert Has(adopted, id) <==>
      Has(pool, id) || exists i: nat :: i < n && Usable(nodes[i]) && EntryId(env, source, nodes[i]) == id by {
      if i: nat :| i < n && Usable(nodes[i]) && EntryId(env, source, nodes[i]) == id {
        assert Usable(front[i]) && EntryId(env, source, front[i]) == id;
      }
    }
    assert Enters(env, pool, source, nodes, n) <==> Usable(nodes[n]) && !Has(adopted, id);
  }

  lemma {:induction false} AdoptIds(env: Env, pool: seq<Node>, source: string, nodes: seq<Node>, id: string)
    ensures Has(Adopt(env, pool, source, nodes), id) <==>
              Has(pool, id) || exists i: nat :: i < |nodes| && Usable(nodes[i]) && EntryId(env, source, nodes[i]) == id
    decreases |nodes|
  {
    if nodes != [] {
      var n := |nodes| - 1;
      var front, last := nodes[..n], EntryId(env, source, nodes[n]);
      forall other
        ensures Has(Adopt(env, pool, source, front), other) <==>
                  Has(pool, other)
                  || exists i: nat :: i < |front| && Usable(front[i]) && EntryId(env, source, front[i]) == other
      {
        AdoptIds(env, pool, source, front, other);
      }
      AdoptStep(env, pool, source, nodes);
      hide Adopt, EntryId, Usable;
      var before, after := Adopt(env, pool, source, front), Adopt(env, pool, source, nodes);
      assert Has(after, id) <==> Has(before, id) || (Enters(env, pool, source, nodes, n) && last == id);
      if i: nat :| i < n && Usable(nodes[i]) && EntryId(env, source, nodes[i]) == id {
        assert Usable(front[i]) && EntryId(env, source, front[i]) == id;
      }
    }
  }

  lemma {:induction false} AdoptIs(env: Env, pool: seq<Node>, source: string, nodes: seq<Node>)
    ensures forall x :: x in Adopt(env, pool, source, nodes) <==> x in pool || x in Entering(env, pool, source, nodes)
  {
    if nodes == [] {
      assert Entering(env, pool, source, nodes) == {};
    } else {
      var front := nodes[..|nodes| - 1];
      AdoptIs(env, pool, source, front);
      EnteringStep(env, pool, source, nodes);
      forall id
        ensures Has(Adopt(env, pool, source, front), id) <==>
                  Has(pool, id)
                  || exists i: nat :: i < |front| && Usable(front[i]) && EntryId(env, source, front[i]) == id
      {
        AdoptIds(env, pool, source, front, id);
      }
      AdoptStep(env, pool, source, nodes);
      hide Entering, Adopt, Enters;
    }
  }

  /** Adding a source adds exactly its nodes that enter; replacing one does so after removing its old ones. */
  lemma {:induction false} SourceAnswers(env: Env, s: State, source: string, nodes: seq<Node>)
    requires Canonical(env, s) && source != ""
    ensures var r := Transition(env, s, AddSource(source, nodes));
            && r.Success? && r.value.candidate.None? && KeepsSelection(s, r.value.state)
            && BodySet(env, r.value.state.nodes) ==
               BodySet(env, s.nodes) + (set n | n in Entering(env, s.nodes, source, nodes) :: Body(env, n))
    ensures var t, r := Transition(env, s, RemoveSource(source)), Transition(env, s, ReplaceSource(source, nodes));
            t.Success? && r.Success? && Transition(env, t.value.state, AddSource(source, nodes)).Success?
            && r.value.state == Transition(env, t.value.state, AddSource(source, nodes)).value.state
  {
    hide Normalize, Canonical, Keep, Admit, BodySet, KeepsSelection, Entering;
    CanonicalIffFixed(env, s);
    AdmitBodies(env, s, source, nodes);
    KeepCanonical(env, s, OtherSources(source));
    CanonicalIffFixed(env, Keep(env, s, OtherSources(source)));
  }

  lemma {:induction false} AdmitBodies(env: Env, s: State, source: string, nodes: seq<Node>)
    requires Canonical(env, s)
    ensures BodySet(env, Admit(env, s, source, nodes).nodes) ==
            BodySet(env, s.nodes) + (set n | n in Entering(env, s.nodes, source, nodes) :: Body(env, n))
    ensures KeepsSelection(s, Admit(env, s, source, nodes))
  {
    hide Adopt, Reindex, Entering, Body, UniqueIds, NamedIds, Pooled;
    CanonicalParts(env, s);
    AdoptKeepsUnique(env, s.nodes, source, nodes);
    var adopted := Adopt(env, s.nodes, source, nodes);
    ReindexBodies(env, adopted);
    ReindexNamed(env, adopted);
    ValidateKeeps(env, s, Reindex(env, adopted));
    AdoptIs(env, s.nodes, source, nodes);
  }

  lemma {:induction false} CanonicalParts(env: Env, s: State)
    requires Canonical(env, s)
    ensures UniqueIds(s.nodes) && NamedIds(s.nodes) && Pooled(s.nodes)
  {
  }

  lemma {:induction false} ReindexNamed(env: Env, nodes: seq<Node>)
    requires UniqueIds(nodes) && NamedIds(nodes) && Pooled(nodes)
    ensures NamedIds(Reindex(env, nodes))
  {
    hide Reindex;
    ReindexCanonical(env, nodes);
  }

  // ----- Failures

  /** Giving a node up, the one asked about or else the pending or the selected one, leaves exactly the others, and
      selects and marks the first usable one of them as pending. */
  lemma {:induction false} FailAnswers(env: Env, s: State, nodeId: string) returns (i: nat)
    requires Canonical(env, s)
    ensures var r := Transition(env, s, Fail(nodeId));
            var id := if nodeId == "" then s.selectedNode else nodeId;
            && r.Success? && r.value.state.scanActive == s.scanActive && r.value.state.generation == s.generation
            && BodySet(env, r.value.state.nodes) == (set b | b in BodySet(env, s.nodes) && b.id != id)
            && var t := r.value.state;
            && (r.value.candidate.None? <==> forall n <- t.nodes :: !Usable(n))
            && (r.value.candidate.None? ==> t.selectedNode == "" && t.pendingNode == "")
            && (r.value.candidate.Some? ==>
                  && i < |t.nodes| && Usable(t.nodes[i]) && (forall k :: 0 <= k < i ==> !Usable(t.nodes[k]))
                  && r.value.candidate.value == t.nodes[i]
                  && t.selectedNode == t.nodes[i].id && t.pendingNode == t.nodes[i].id)
  {
    hide Normalize, Canonical, Reindex, BodySet, SelectCandidate;
    CanonicalIffFixed(env, s);
    var id := if nodeId == "" then s.selectedNode else nodeId;
    PendingIsSelected(env, s);
    OthersBodies(env, s, id);
    var kept := if id != "" then Filter(OtherNodes(id), s.nodes) else s.nodes;
    i := FirstIsSelected(s.(nodes := Reindex(env, kept), selectedNode := "", pendingNode := ""));
  }

  lemma {:induction false} PendingIsSelected(env: Env, s: State)
    requires Canonical(env, s)
    ensures s.pendingNode == "" || s.pendingNode == s.selectedNode
  {
  }

  /** With nothing selected the first usable node is. */
  lemma {:induction false} FirstIsSelected(s: State) returns (i: nat)
    requires s.selectedNode == "" && s.pendingNode == ""
    ensures var (t, candidate) := SelectCandidate(s, true);
            && t.nodes == s.nodes && t.scanActive == s.scanActive && t.generation == s.generation
            && (candidate.None? <==> forall n <- s.nodes :: !Usable(n))
            && (candidate.None? ==> t.selectedNode == "" && t.pendingNode == "")
            && (candidate.Some? ==>
                  && i < |s.nodes| && Usable(s.nodes[i]) && (forall k :: 0 <= k < i ==> !Usable(s.nodes[k]))
                  && candidate.value == s.nodes[i]
                  && t.selectedNode == s.nodes[i].id && t.pendingNode == s.nodes[i].id)
  {
    FirstAvailableIs(s.nodes);
    i := 0;
    if FirstAvailable(s.nodes).Some? {
      i := FirstAvailableAt(s.nodes);
      assert s.nodes[i] in s.nodes;
    }
  }

  lemma {:induction false} OthersBodies(env: Env, s: State, id: string)
    requires Canonical(env, s)
    ensures BodySet(env, Reindex(env, if id != "" then Filter(OtherNodes(id), s.nodes) else s.nodes)) ==
              set b | b in BodySet(env, s.nodes) && b.id != id
  {
    hide CanonicalNodes, Reindex;
    CanonicalParts(env, s);
    if id != "" {
      KeepBodies(env, s, OtherNodes(id));
      FilterKeepsUnique(OtherNodes(id), s.nodes);
      ReindexBodies(env, Filter(OtherNodes(id), s.nodes));
    } else {
      ReindexBodies(env, s.nodes);
    }
  }
}
