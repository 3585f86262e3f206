/** The derived pool of servers used on a restricted network, as a state machine over commands. */
module Whitelist {
  import opened Wrappers
  import opened Rank
  import opened Seqs
  import opened StableSort
  import Lex

  const POOL := "whitelist"

  datatype Proxy = Proxy(name: string, payload: string)

  datatype Node = Node(
    id: string, displayName: string, pool: string, originPool: string, priority: int,
    alive: bool, activationRequired: bool, metrics: Metrics, score: real,
    sourceId: string, sourceName: string, proxy: Option<Proxy>)

  datatype State = State(nodes: seq<Node>, selectedNode: string, pendingNode: string, scanActive: bool, generation: int)

  const EMPTY := State([], "", "", false, 0)

  datatype Command =
    | Begin
    | AddSource(sourceId: string, nodes: seq<Node>)
    | ReplaceSource(sourceId: string, nodes: seq<Node>)
    | RemoveSource(sourceId: string)
    | RemoveNode(nodeId: string)
    | Active
    | Request
    | Choose(nodeId: string)
    | Confirm(nodeId: string)
    | Fail(nodeId: string)
    | Complete
    | Deactivate
    | Clear
    | UnknownOperation

  datatype Reply = Reply(state: State, candidate: Option<Node>, changed: bool)

  /** What the pool takes from elsewhere: the rating and the digest of a source's proxy. */
  datatype Env = Env(rating: Rating, digest: (string, Option<Proxy>) -> string)

  function StableID(env: Env, sourceId: string, proxy: Option<Proxy>): (id: string)
    ensures id != ""
  {
    POOL + ":" + sourceId + ":" + env.digest(sourceId, proxy)
  }

  predicate Available(n: Node) {
    n.alive || n.activationRequired
  }

  // ----- The helpers as functions

  function Find(nodes: seq<Node>, id: string): Option<Node> {
    if id == "" || nodes == [] then None
    else if nodes[0].id == id then Some(nodes[0])
    else Find(nodes[1..], id)
  }

  function Identified(env: Env, n: Node): Node {
    if n.id == "" then n.(id := StableID(env, n.sourceId, n.proxy)) else n
  }

  /** Give every node an ID and keep the first one of each. */
  function Clean(env: Env, nodes: seq<Node>): seq<Node> {
    if nodes == [] then []
    else
      var front, n := Clean(env, nodes[..|nodes| - 1]), Identified(env, nodes[|nodes| - 1]);
      if exists m <- front :: m.id == n.id then front else front + [n.(pool := POOL)]
  }

  /** Verified nodes first, then by falling score, then by ID. */
  predicate NodeBefore(a: Node, b: Node) {
    if a.alive != b.alive then a.alive
    else if a.score == b.score then Lex.Less(a.id, b.id)
    else a.score > b.score
  }

  function NodeOrder(): (Node, Node) -> bool {
    (a, b) => NodeBefore(a, b)
  }

  /** What identifies a node up to its place in the list. */
  function Body(env: Env, n: Node): Node {
    n.(score := env.rating(n.metrics), priority := 0)
  }

  function Bodies(env: Env, nodes: seq<Node>): (r: seq<Node>)
    ensures |r| == |nodes|
  {
    seq(|nodes|, i requires 0 <= i < |nodes| => Body(env, nodes[i]))
  }

  function Numbered(nodes: seq<Node>): (r: seq<Node>)
    ensures |r| == |nodes|
  {
    seq(|nodes|, i requires 0 <= i < |nodes| => nodes[i].(priority := i + 1))
  }

  function Reindex(env: Env, nodes: seq<Node>): seq<Node> {
    Numbered(Sort(NodeOrder(), Bodies(env, nodes)))
  }

  function Validate(s: State): State {
    var selected := if Find(s.nodes, s.selectedNode).None? then "" else s.selectedNode;
    var pending := if Find(s.nodes, s.pendingNode).None? || (s.pendingNode != "" && s.pendingNode != selected) then ""
        else s.pendingNode;
    s.(selectedNode := selected, pendingNode := pending)
  }

  function Normalize(env: Env, s: State): State {
    Validate(s.(nodes := Reindex(env, Clean(env, s.nodes))))
  }

  function OtherSources(sourceId: string): Node -> bool {
    (n: Node) => n.sourceId != sourceId
  }

  function OtherNodes(id: string): Node -> bool {
    (n: Node) => n.id != id
  }

  function Keep(env: Env, s: State, keep: Node -> bool): State {
    Validate(s.(nodes := Reindex(env, Filter(keep, s.nodes))))
  }

  /** A command's node as it enters the pool. */
  function Adopted(env: Env, sourceId: string, n: Node): Node {
    var n := n.(sourceId := sourceId, pool := POOL);
    if n.id == "" then n.(id := StableID(env, sourceId, n.proxy)) else n
  }

  /** Append the available nodes whose ID the pool does not have yet. */
  function Adopt(env: Env, pool: seq<Node>, sourceId: string, nodes: seq<Node>): seq<Node> {
    if nodes == [] then pool
    else
      var front, n := Adopt(env, pool, sourceId, nodes[..|nodes| - 1]), nodes[|nodes| - 1];
      if !Available(n) || Find(front, Adopted(env, sourceId, n).id).Some? then front
      else front + [Adopted(env, sourceId, n)]
  }

  function Admit(env: Env, s: State, sourceId: string, nodes: seq<Node>): State {
    Validate(s.(nodes := Reindex(env, Adopt(env, s.nodes, sourceId, nodes))))
  }

  function FirstAvailable(nodes: seq<Node>): Option<Node> {
    if nodes == [] then None else if Available(nodes[0]) then Some(nodes[0]) else FirstAvailable(nodes[1..])
  }

  function SelectCandidate(s: State, markPending: bool): (State, Option<Node>) {
    if s.pendingNode != "" then (s, Find(s.nodes, s.pendingNode))
    else
      var current := Find(s.nodes, s.selectedNode);
      var chosen := if current.Some? && Available(current.value) then current else FirstAvailable(s.nodes);
      var t := if current.Some? && Available(current.value) then s
               else s.(selectedNode := if chosen.Some? then chosen.value.id else "");
      (if chosen.Some? && markPending then t.(pendingNode := chosen.value.id) else t, chosen)
  }

  function Failed(env: Env, s: State, nodeId: string): (State, Option<Node>) {
    var id := if nodeId != "" then nodeId else if s.pendingNode != "" then s.pendingNode else s.selectedNode;
    var kept := if id != "" then Filter(OtherNodes(id), s.nodes) else s.nodes;
    SelectCandidate(s.(nodes := Reindex(env, kept), selectedNode := "", pendingNode := ""), true)
  }

  function Confirmed(s: State, nodeId: string): (State, Option<Node>) {
    var id := if nodeId != "" then nodeId else s.pendingNode;
    if id != "" && id == s.selectedNode && (s.pendingNode == "" || id == s.pendingNode)
    then (s.(pendingNode := ""), Find(s.nodes, id)) else (s, None)
  }

  /** One command on a normalized state: the new state and the node it answers with. */
  function Execute(env: Env, s: State, command: Command): Result<(State, Option<Node>), string> {
    match command
    case Begin => Success((s.(scanActive := true, generation := s.generation + 1), None))
    case AddSource(sourceId, nodes) =>
      if sourceId == "" then Failure("source_id_required") else Success((Admit(env, s, sourceId, nodes), None))
    case ReplaceSource(sourceId, nodes) =>
      if sourceId == "" then Failure("source_id_required")
      else Success((Admit(env, Keep(env, s, OtherSources(sourceId)), sourceId, nodes), None))
    case RemoveSource(sourceId) =>
      if sourceId == "" then Failure("source_id_required") else Success((Keep(env, s, OtherSources(sourceId)), None))
    case RemoveNode(nodeId) =>
      if nodeId == "" then Failure("node_id_required") else Success((Keep(env, s, OtherNodes(nodeId)), None))
    case Active => Success(SelectCandidate(s, false))
    case Request => Success(SelectCandidate(s, true))
    case Choose(nodeId) =>
      var selected := Find(s.nodes, nodeId);
      if nodeId == "" then Failure("node_id_required")
      else if selected.None? || !Available(selected.value) then Failure("node_unavailable")
      else Success((s.(selectedNode := selected.value.id, pendingNode := ""), selected))
    case Confirm(nodeId) => Success(Confirmed(s, nodeId))
    case Fail(nodeId) => Success(Failed(env, s, nodeId))
    case Complete => Success((s.(scanActive := false), None))
    case Deactivate => Success((s.(selectedNode := "", pendingNode := "", scanActive := false), None))
    case Clear => Success((State([], "", "", false, s.generation + 1), None))
    case UnknownOperation => Failure("unknown_whitelist_operation")
  }

  function Transition(env: Env, input: State, command: Command): Result<Reply, string> {
    var before := Normalize(env, input);
    match Execute(env, before, command)
    case Success((state, candidate)) => Success(Reply(state, candidate, state != before))
    case Failure(error) => Failure(error)
  }

  // ----- The pool object of the source

  /** The sort does not look at priorities, so scoring in place and sorting is sorting the bodies. */
  lemma {:induction false} InsertIgnoresPriority(x: Node, s: seq<Node>)
    ensures |StableSort.Insert(NodeOrder(), x, s)| == |s| + 1
    ensures Plain(StableSort.Insert(NodeOrder(), x, s)) == StableSort.Insert(NodeOrder(), x.(priority := 0), Plain(s))
  {
    if s != [] {
      assert Plain(s)[1..] == Plain(s[1..]);
      if NodeBefore(s[0], x) {
        InsertIgnoresPriority(x, s[1..]);
        assert Plain([s[0]] + StableSort.Insert(NodeOrder(), x,
            s[1..])) == [s[0].(priority := 0)] + Plain(StableSort.Insert(NodeOrder(), x, s[1..]));
      } else {
        assert Plain([x] + s) == [x.(priority := 0)] + Plain(s);
      }
    }
  }

  function Plain(nodes: seq<Node>): (r: seq<Node>)
    ensures |r| == |nodes|
  {
    seq(|nodes|, i requires 0 <= i < |nodes| => nodes[i].(priority := 0))
  }

  lemma {:induction false} SortIgnoresPriority(s: seq<Node>)
    ensures Plain(Sort(NodeOrder(), s)) == Sort(NodeOrder(), Plain(s))
  {
    if s != [] {
      assert Plain(s)[1..] == Plain(s[1..]);
      SortIgnoresPriority(s[1..]);
      InsertIgnoresPriority(s[0], Sort(NodeOrder(), s[1..]));
    }
  }

  /** Names the nodes and drops repeated ones. */
  method CleanNodes(env: Env, nodes: seq<Node>) returns (clean: seq<Node>)
    ensures clean == Clean(env, nodes)
  {
    clean := [];
    var seen: set<string> := {};
    for i := 0 to |nodes|
      invariant clean == Clean(env, nodes[..i])
      invariant forall id :: id in seen <==> exists m <- clean :: m.id == id
    {
      assert nodes[..i + 1][..i] == nodes[..i];
      var node := nodes[i];
      if node.id == "" {
        node := node.(id := StableID(env, node.sourceId, node.proxy));
      }
      if node.id in seen {
        continue;
      }
      seen := seen + {node.id};
      node := node.(pool := POOL);
      clean := clean + [node];
    }
    assert nodes[..|nodes|] == nodes;
  }

  class Pool {
    const env: Env
    var nodes: seq<Node>
    var selectedNode: string
    var pendingNode: string
    var scanActive: bool
    var generation: int

    function View(): State
      reads this
    {
      State(nodes, selectedNode, pendingNode, scanActive, generation)
    }

    /** Loads and normalizes a stored state. */
    constructor (env: Env, input: State)
      ensures View() == Normalize(env, input) && this.env == env
    {
      var clean := CleanNodes(env, input.nodes);
      this.env := env;
      nodes := clean;
      selectedNode, pendingNode := input.selectedNode, input.pendingNode;
      scanActive, generation := input.scanActive, input.generation;
      new;
      ReindexNodes();
      ValidateSelection();
    }

    /** Rates, sorts and renumbers the nodes. */
    method ReindexNodes()
      modifies this`nodes
      ensures nodes == Reindex(env, old(nodes))
    {
      ghost var before := nodes;
      for i := 0 to |nodes|
        invariant |nodes| == |before|
        invariant forall k :: 0 <= k < i ==> nodes[k] == before[k].(score := env.rating(before[k].metrics))
        invariant forall k :: i <= k < |before| ==> nodes[k] == before[k]
      {
        nodes := nodes[i := nodes[i].(score := env.rating(nodes[i].metrics))];
      }
      assert Plain(nodes) == Bodies(env, before);
      SortIgnoresPriority(nodes);
      nodes := Sort(NodeOrder(), nodes);
      ghost var sorted := nodes;
      for i := 0 to |nodes|
        invariant |nodes| == |sorted|
        invariant forall k :: 0 <= k < i ==> nodes[k] == sorted[k].(priority := k + 1)
        invariant forall k :: i <= k < |sorted| ==> nodes[k] == sorted[k]
      {
        nodes := nodes[i := nodes[i].(priority := i + 1)];
      }
      assert nodes == Numbered(Plain(sorted));
    }

    /** Drops a selection that is not in the pool and a pending node that is not the selected one. */
    method ValidateSelection()
      modifies this
      ensures View() == Validate(old(View()))
    {
      if Find(nodes, selectedNode).None? {
        selectedNode := "";
      }
      if Find(nodes, pendingNode).None? || (pendingNode != "" && pendingNode != selectedNode) {
        pendingNode := "";
      }
    }

    method DropSource(sourceId: string)
      modifies this
      ensures View() == Keep(env, old(View()), OtherSources(sourceId))
    {
      ghost var all := nodes;
      var kept := [];
      for i := 0 to |nodes|
        invariant View() == old(View())
        invariant kept == Filter(OtherSources(sourceId), all[..i])
      {
        FilterNext(OtherSources(sourceId), all, i);
        if nodes[i].sourceId != sourceId {
          kept := kept + [nodes[i]];
        }
      }
      assert all[..|all|] == all;
      nodes := kept;
      ReindexNodes();
      ValidateSelection();
    }

    method KeepOthers(nodeId: string) returns (kept: seq<Node>)
      ensures kept == Filter(OtherNodes(nodeId), nodes)
    {
      kept := [];
      for i := 0 to |nodes|
        invariant kept == Filter(OtherNodes(nodeId), nodes[..i])
      {
        FilterNext(OtherNodes(nodeId), nodes, i);
        if nodes[i].id != nodeId {
          kept := kept + [nodes[i]];
        }
      }
      assert nodes[..|nodes|] == nodes;
    }

    method DropNode(nodeId: string)
      modifies this
      ensures View() == Keep(env, old(View()), OtherNodes(nodeId))
    {
      nodes := KeepOthers(nodeId);
      ReindexNodes();
      ValidateSelection();
    }

    method InsertNodes(sourceId: string, incoming: seq<Node>)
      modifies this
      ensures View() == Admit(env, old(View()), sourceId, incoming)
    {
      ghost var base := nodes;
      for i := 0 to |incoming|
        invariant View() == old(View()).(nodes := Adopt(env, base, sourceId, incoming[..i]))
      {
        assert incoming[..i + 1][..i] == incoming[..i];
        var node := incoming[i];
        if !Available(node) {
          continue;
        }
        node := node.(sourceId := sourceId, pool := POOL);
        if node.id == "" {
          node := node.(id := StableID(env, sourceId, node.proxy));
        }
        if Find(nodes, node.id).None? {
          nodes := nodes + [node];
        }
      }
      assert incoming[..|incoming|] == incoming;
      ReindexNodes();
      ValidateSelection();
    }

    /** Answers with the pending node, else the selected one, else the first available one. */
    method PickCandidate(markPending: bool) returns (candidate: Option<Node>)
      modifies this
      ensures (View(), candidate) == SelectCandidate(old(View()), markPending)
    {
      if pendingNode != "" {
        return Find(nodes, pendingNode);
      }
      candidate := Find(nodes, selectedNode);
      if candidate.None? || !Available(candidate.value) {
        selectedNode := "";
        candidate := None;
        ghost var before := View();
        for i := 0 to |nodes|
          invariant View() == before && candidate == None
          invariant FirstAvailable(nodes) == FirstAvailable(nodes[i..])
        {
          if Available(nodes[i]) {
            selectedNode := nodes[i].id;
            candidate := Some(nodes[i]);
            break;
          }
          assert nodes[i..][1..] == nodes[i + 1..];
        }
      }
      if candidate.Some? && markPending {
        pendingNode := candidate.value.id;
      }
    }

    method Run(command: Command) returns (r: Result<Option<Node>, string>)
      modifies this
      ensures match Execute(env, old(View()), command)
              case Success((state, candidate)) => r == Success(candidate) && View() == state
              case Failure(error) => r == Failure(error)
    {
      var candidate: Option<Node> := None;
      match command {
        case Begin =>
          scanActive := true;
          generation := generation + 1;
        case AddSource(sourceId, incoming) =>
          if sourceId == "" {
            return Failure("source_id_required");
          }
          InsertNodes(sourceId, incoming);
        case ReplaceSource(sourceId, incoming) =>
          if sourceId == "" {
            return Failure("source_id_required");
          }
          DropSource(sourceId);
          InsertNodes(sourceId, incoming);
        case RemoveSource(sourceId) =>
          if sourceId == "" {
            return Failure("source_id_required");
          }
          DropSource(sourceId);
        case RemoveNode(nodeId) =>
          if nodeId == "" {
            return Failure("node_id_required");
          }
          DropNode(nodeId);
        case Active => candidate := PickCandidate(false);
        case Request => candidate := PickCandidate(true);
        case Choose(nodeId) =>
          if nodeId == "" {
            return Failure("node_id_required");
          }
          candidate := Find(nodes, nodeId);
          if candidate.None? || !Available(candidate.value) {
            return Failure("node_unavailable");
          }
          selectedNode, pendingNode := candidate.value.id, "";
        case Confirm(nodeId) =>
          var id := nodeId;
          if id == "" {
            id := pendingNode;
          }
          if id != "" && id == selectedNode && (pendingNode == "" || id == pendingNode) {
            pendingNode := "";
            candidate := Find(nodes, id);
          }
        case Fail(nodeId) => candidate := FailNode(nodeId);
        case Complete => scanActive := false;
        case Deactivate => selectedNode, pendingNode, scanActive := "", "", false;
        case Clear =>
          nodes, selectedNode, pendingNode, scanActive := [], "", "", false;
          generation := generation + 1;
        case UnknownOperation => return Failure("unknown_whitelist_operation");
      }
      return Success(candidate);
    }

    method FailNode(nodeId: string) returns (candidate: Option<Node>)
      modifies this
      ensures (View(), candidate) == Failed(env, old(View()), nodeId)
    {
      var id := nodeId;
      if id == "" {
        id := pendingNode;
      }
      if id == "" {
        id := selectedNode;
      }
      if id != "" {
        nodes := KeepOthers(id);
      }
      selectedNode, pendingNode := "", "";
      ReindexNodes();
      candidate := PickCandidate(true);
    }
  }

  method RunTransition(env: Env, input: State, command: Command) returns (r: Result<Reply, string>)
    ensures r == Transition(env, input, command)
  {
    var pool := new Pool(env, input);
    var before := pool.View();
    var candidate := pool.Run(command);
    if candidate.Failure? {
      return Failure(candidate.error);
    }
    var after := pool.View();
    return Success(Reply(after, candidate.value, after != before));
  }
}
