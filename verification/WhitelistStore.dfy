/** The stored pool and the two provider files derived from it. */
module WhitelistStore {
  import opened Wrappers
  import opened Rank
  import opened Whitelist
  import opened WhitelistForm
  import opened StableSort

  /** What the second provider file says about a proxy. */
  datatype Meta = Meta(sourceId: string, sourceName: string, metrics: Metrics)

  datatype Disk = Disk(state: State, provider: seq<Proxy>, sources: map<string, Meta>)

  const NEW_DISK := Disk(EMPTY, [], map[])

  predicate Offered(n: Node) {
    n.alive && n.proxy.Some?
  }

  /** The proxies offered to the transport: those of alive nodes, in pool order. */
  function AliveProxies(nodes: seq<Node>): seq<Proxy> {
    if nodes == [] then []
    else
      var front, n := AliveProxies(nodes[..|nodes| - 1]), nodes[|nodes| - 1];
      if Offered(n) then front + [n.proxy.value] else front
  }

  /** Their sources and measurements, by name. */
  function AliveSources(nodes: seq<Node>): map<string, Meta> {
    if nodes == [] then map[]
    else
      var front, n := AliveSources(nodes[..|nodes| - 1]), nodes[|nodes| - 1];
      if Offered(n) && n.proxy.value.name != ""
          then front[n.proxy.value.name := Meta(n.sourceId, n.sourceName, n.metrics)]
      else front
  }

  /** The proxy list of two parts is that of the first and then that of the second, ... */
  lemma {:induction false} ProxiesOfParts(a: seq<Node>, b: seq<Node>)
    ensures AliveProxies(a + b) == AliveProxies(a) + AliveProxies(b)
  {
    if b == [] {
      assert a + b == a;
    } else {
      var n := |b| - 1;
      assert (a + b)[..|a| + n] == a + b[..n];
      ProxiesOfParts(a, b[..n]);
    }
  }

  /** ... and that of one node is its proxy, if it has one and was verified. */
  lemma {:induction false} ProxiesOfOne(n: Node)
    ensures n.alive && n.proxy.Some? ==> AliveProxies([n]) == [n.proxy.value]
    ensures !n.alive || n.proxy.None? ==> AliveProxies([n]) == []
  {
    assert [n][..0] == [];
  }

  /** The node at `i` is the last verified one whose proxy has this name. */
  ghost predicate LastNamed(nodes: seq<Node>, i: nat, name: string) {
    && i < |nodes| && nodes[i].alive && nodes[i].proxy.Some? && nodes[i].proxy.value.name == name
    && forall j :: i < j < |nodes| ==>
         !(nodes[j].alive && nodes[j].proxy.Some? && nodes[j].proxy.value.name == name)
  }

  /** The metadata describe every named proxy of the list, and no other, by the last node that has it. */
  lemma {:induction false} SourcesAre(nodes: seq<Node>, name: string)
    ensures name in AliveSources(nodes) <==> name != "" && exists i: nat :: LastNamed(nodes, i, name)
    ensures forall i: nat :: name != "" && LastNamed(nodes, i, name) ==>
              AliveSources(nodes)[name] == Meta(nodes[i].sourceId, nodes[i].sourceName, nodes[i].metrics)
  {
    if nodes != [] {
      var n := |nodes| - 1;
      var front, last := nodes[..n], nodes[n];
      SourcesAre(front, name);
      var named := last.alive && last.proxy.Some? && last.proxy.value.name == name;
      forall i: nat
        ensures LastNamed(nodes, i, name) <==> if named then i == n else LastNamed(front, i, name)
      {
      }
      assert named ==> LastNamed(nodes, n, name);
    }
  }

  ghost predicate InSync(d: Disk) {
    d.provider == AliveProxies(d.state.nodes) && d.sources == AliveSources(d.state.nodes)
  }

  /** Whether each of the three writes succeeds. */
  datatype Writes = Writes(stateOk: bool, proxiesOk: bool, sourcesOk: bool)

  const WRITE_FAILED := "write_failed"

  function Persist(env: Env, d: Disk, command: Command, w: Writes): (Disk, Result<Reply, string>) {
    match Transition(env, d.state, command)
    case Failure(error) => (d, Failure(error))
    case Success(reply) =>
      var nodes := reply.state.nodes;
      if !reply.changed then (d, Success(reply))
      else if !w.stateOk then (d, Failure(WRITE_FAILED))
      else if !w.proxiesOk then (d.(state := reply.state), Failure(WRITE_FAILED))
      else if !w.sourcesOk then (d.(state := reply.state, provider := AliveProxies(nodes)), Failure(WRITE_FAILED))
      else (Disk(reply.state, AliveProxies(nodes), AliveSources(nodes)), Success(reply))
  }

  class Store {
    const env: Env
    var stored: State
    var provider: seq<Proxy>
    var sources: map<string, Meta>

    function View(): Disk
      reads this
    {
      Disk(stored, provider, sources)
    }

    constructor (env: Env)
      ensures this.env == env && View() == NEW_DISK
    {
      this.env, stored, provider, sources := env, EMPTY, [], map[];
    }

    /** Writes the proxy list and then the metadata; a failed write ends it. */
    method WriteProvider(state: State, w: Writes) returns (done: bool)
      modifies this`provider, this`sources
      ensures done <==> w.proxiesOk && w.sourcesOk
      ensures provider == if w.proxiesOk then AliveProxies(state.nodes) else old(provider)
      ensures sources == if w.proxiesOk && w.sourcesOk then AliveSources(state.nodes) else old(sources)
    {
      var proxies: seq<Proxy>, metadata: map<string, Meta> := [], map[];
      for i := 0 to |state.nodes|
        invariant proxies == AliveProxies(state.nodes[..i]) && metadata == AliveSources(state.nodes[..i])
      {
        assert state.nodes[..i + 1][..i] == state.nodes[..i];
        var node := state.nodes[i];
        if !node.alive || node.proxy.None? {
          continue;
        }
        proxies := proxies + [node.proxy.value];
        var name := node.proxy.value.name;
        if name != "" {
          metadata := metadata[name := Meta(node.sourceId, node.sourceName, node.metrics)];
        }
      }
      assert state.nodes[..|state.nodes|] == state.nodes;
      if !w.proxiesOk {
        return false;
      }
      provider := proxies;
      if !w.sourcesOk {
        return false;
      }
      sources := metadata;
      return true;
    }

    method Apply(command: Command, w: Writes) returns (r: Result<Reply, string>)
      modifies this
      ensures (View(), r) == Persist(env, old(View()), command, w)
    {
      r := RunTransition(env, stored, command);
      if r.Success? && r.value.changed {
        if !w.stateOk {
          return Failure(WRITE_FAILED);
        }
        stored := r.value.state;
        var done := WriteProvider(stored, w);
        if !done {
          return Failure(WRITE_FAILED);
        }
      }
    }
  }

  // ----- Runs in which writes fail

  datatype Step = Step(command: Command, writes: Writes)

  function Runs(env: Env, steps: seq<Step>): (Disk, seq<Result<Reply, string>>) {
    if steps == [] then (NEW_DISK, [])
    else
      var (front, replies) := Runs(env, steps[..|steps| - 1]);
      var (after, reply) := Persist(env, front, steps[|steps| - 1].command, steps[|steps| - 1].writes);
      (after, replies + [reply])
  }

  /** The files after the first `i` steps. */
  function At(env: Env, steps: seq<Step>, i: nat): Disk
    requires i <= |steps|
  {
    Runs(env, steps[..i]).0
  }

  /** Step `i` changed the pool and wrote it. */
  predicate Saved(env: Env, steps: seq<Step>, i: nat)
    requires i < |steps|
  {
    var r := Transition(env, At(env, steps, i).state, steps[i].command);
    r.Success? && r.value.changed && steps[i].writes.stateOk
  }

  /** After how many steps the proxy list was last written; 0 if it never was. */
  function ListedAt(env: Env, steps: seq<Step>): (k: nat)
    ensures k <= |steps|
    decreases |steps|
  {
    if steps == [] then 0
    else
      var n := |steps| - 1;
      if Saved(env, steps, n) && steps[n].writes.proxiesOk then n + 1 else ListedAt(env, steps[..n])
  }

  function DescribedAt(env: Env, steps: seq<Step>): (k: nat)
    ensures k <= |steps|
    decreases |steps|
  {
    if steps == [] then 0
    else
      var n := |steps| - 1;
      if Saved(env, steps, n) && steps[n].writes.proxiesOk && steps[n].writes.sourcesOk then n + 1
      else DescribedAt(env, steps[..n])
  }

  lemma {:induction false} AtPrefix(env: Env, steps: seq<Step>, n: nat, i: nat)
    requires i <= n <= |steps|
    ensures At(env, steps[..n], i) == At(env, steps, i)
  {
    assert steps[..n][..i] == steps[..i];
  }

  lemma {:induction false} AtLast(env: Env, steps: seq<Step>)
    requires steps != []
    ensures var n := |steps| - 1;
            && At(env, steps, n + 1) == Persist(env, At(env, steps, n), steps[n].command, steps[n].writes).0
            && At(env, steps, n + 1) == Runs(env, steps).0
  {
    assert steps[..|steps|] == steps;
  }

  /** In every run each provider file is that of the pool as it was when the file was last written. */
  lemma {:induction false} FilesAreOfLastWrite(env: Env, steps: seq<Step>)
    ensures var d := Runs(env, steps).0;
            && d.provider == AliveProxies(At(env, steps, ListedAt(env, steps)).state.nodes)
            && d.sources == AliveSources(At(env, steps, DescribedAt(env, steps)).state.nodes)
    decreases |steps|
  {
    hide Transition, AliveProxies, AliveSources;
    if steps == [] {
      NothingAlive();
    } else {
      var n := |steps| - 1;
      FilesAreOfLastWrite(env, steps[..n]);
      AtLast(env, steps);
      AtPrefix(env, steps, n, ListedAt(env, steps[..n]));
      AtPrefix(env, steps, n, DescribedAt(env, steps[..n]));
    }
  }

  /** After any run the files are in step with the stored pool exactly if what they are derived from did not change
      since each was last written. */
  lemma {:induction false} SyncIff(env: Env, steps: seq<Step>)
    ensures var d := Runs(env, steps).0;
            InSync(d) <==>
            && AliveProxies(At(env, steps, ListedAt(env, steps)).state.nodes) == AliveProxies(d.state.nodes)
            && AliveSources(At(env, steps, DescribedAt(env, steps)).state.nodes) == AliveSources(d.state.nodes)
  {
    FilesAreOfLastWrite(env, steps);
  }

  /** A lag does happen: the first node of a pool, stored while its provider file is not. */
  lemma {:induction false} LagHappens(env: Env, sourceId: string, n: Node)
    requires sourceId != "" && Offered(n)
    ensures var steps := [Step(AddSource(sourceId, [n]), Writes(true, false, true))];
            && !InSync(Runs(env, steps).0)
            && AliveProxies(Runs(env, steps).0.state.nodes) == [n.proxy.value] && Runs(env, steps).0.provider == []
  {
    var steps := [Step(AddSource(sourceId, [n]), Writes(true, false, true))];
    assert steps[..0] == [] && [n][..0] == [];
    assert Normalize(env, EMPTY) == EMPTY;
    var adopted := Adopted(env, sourceId, n);
    assert Adopt(env, [], sourceId, [n]) == [adopted];
    FirstNode(env, adopted);
    assert Reindex(env, [adopted])[..0] == [];
    assert Runs(env, steps[..0]).0 == NEW_DISK;
  }

  lemma {:induction false} FirstNode(env: Env, n: Node)
    ensures Reindex(env, [n]) == [Body(env, n).(priority := 1)]
  {
    var body := Body(env, n);
    assert Bodies(env, [n]) == [body] && [body][1..] == [];
    assert StableSort.Insert(NodeOrder(), body, []) == [body] && Sort(NodeOrder(), []) == [];
    assert Numbered([body]) == [body.(priority := 1)];
  }

  /** A lag is reported by the step that causes it, and the next change that is written completely ends it. */
  lemma {:induction false} LagIsReportedAndEnds(env: Env, steps: seq<Step>)
    ensures !InSync(Runs(env, steps).0) ==> Failure(WRITE_FAILED) in Runs(env, steps).1
    ensures steps != [] && Saved(env, steps, |steps| - 1) && steps[|steps| - 1].writes == ALL_OK ==>
              InSync(Runs(env, steps).0)
    decreases |steps|
  {
    hide Transition, AliveProxies, AliveSources;
    if steps == [] {
      NothingAlive();
    } else {
      LagIsReportedAndEnds(env, steps[..|steps| - 1]);
    }
  }

  /** The stored pool is canonical after every run. */
  lemma {:induction false} StoredIsCanonical(env: Env, steps: seq<Step>)
    ensures Canonical(env, Runs(env, steps).0.state)
    decreases |steps|
  {
    hide Transition, Canonical, AliveProxies, AliveSources;
    if steps == [] {
      EmptyIsCanonical(env, 0);
    } else {
      var front := steps[..|steps| - 1];
      StoredIsCanonical(env, front);
      var d, command := Runs(env, front).0, steps[|steps| - 1].command;
      if Transition(env, d.state, command).Success? {
        TransitionIsCanonical(env, d.state, command);
      }
    }
  }

  // ----- Saving on change

  const ALL_OK := Writes(true, true, true)

  function Written(commands: seq<Command>): (steps: seq<Step>)
    ensures |steps| == |commands|
  {
    seq(|commands|, i requires 0 <= i < |commands| => Step(commands[i], ALL_OK))
  }

  /** The same commands, written back every time. */
  function PersistAlways(env: Env, d: Disk, command: Command): (Disk, Result<Reply, string>) {
    match Transition(env, d.state, command)
    case Failure(error) => (d, Failure(error))
    case Success(reply) => (Disk(reply.state, AliveProxies(reply.state.nodes), AliveSources(reply.state.nodes)),
        Success(reply))
  }

  function RunsAlways(env: Env, commands: seq<Command>): (Disk, seq<Result<Reply, string>>) {
    if commands == [] then (NEW_DISK, [])
    else
      var (front, replies) := RunsAlways(env, commands[..|commands| - 1]);
      var (after, reply) := PersistAlways(env, front, commands[|commands| - 1]);
      (after, replies + [reply])
  }

  /** Saving only when something changed gives the same files and the same answers as saving always,
      and the provider files are always those of the stored pool. */
  lemma {:induction false} SavingOnChangeSuffices(env: Env, commands: seq<Command>)
    ensures Runs(env, Written(commands)) == RunsAlways(env, commands)
    ensures InSync(Runs(env, Written(commands)).0)
  {
    hide Transition, AliveProxies, AliveSources, Canonical;
    if commands == [] {
      NothingAlive();
    } else {
      var n := |commands| - 1;
      var front, command := commands[..n], commands[n];
      SavingOnChangeSuffices(env, front);
      StoredIsCanonical(env, Written(front));
      assert Written(commands)[..n] == Written(front) && Written(commands)[n] == Step(command, ALL_OK);
      UnchangedMeansEqual(env, Runs(env, Written(front)).0.state, command);
    }
  }

  lemma {:induction false} NothingAlive()
    ensures AliveProxies([]) == [] && AliveSources([]) == map[]
  {
  }

  lemma {:induction false} UnchangedMeansEqual(env: Env, s: State, command: Command)
    requires Canonical(env, s)
    ensures var r := Transition(env, s, command); r.Success? && !r.value.changed ==> r.value.state == s
  {
    hide Normalize, Execute;
    CanonicalIffFixed(env, s);
  }
}
