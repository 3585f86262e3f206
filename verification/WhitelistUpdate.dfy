/** Scanning the cached subscriptions and storing what was found. */
module WhitelistUpdate {
  import opened Seqs
  import opened Wrappers
  import opened Rank
  import opened Whitelist
  import opened WhitelistForm
  import opened WhitelistScan

  datatype Subscription = Subscription(id: string, name: string, group: string, enabled: bool)

  const EMERGENCY_GROUP := "emergency"

  datatype Probe = Probe(proxy: Proxy, delayMs: int, speedMbps: real, stabilityRatio: real)

  /** What became of testing one subscription. */
  datatype Attempt =
    | CacheUnavailable
    | NoSupportedNodes
    | Interrupted
    | QualifyError(reason: string)
    | Qualified(probes: seq<Probe>)

  datatype ScanResult = ScanResult(
    sources: map<string, seq<Node>>, completed: seq<string>, excluded: seq<string>, failures: map<string, string>)

  predicate Excluded(includeEmergency: bool, item: Subscription) {
    !includeEmergency && item.group == EMERGENCY_GROUP
  }

  predicate Eligible(includeEmergency: bool, wanted: set<string>, item: Subscription) {
    !Excluded(includeEmergency, item) && item.enabled && (wanted == {} || item.id in wanted)
  }

  /** The nodes of a finished test: one for each proxy that passed, verified, with its measurements and its source, and
      without an ID or a place of its own. */
  predicate AreFound(item: Subscription, probes: seq<Probe>, nodes: seq<Node>) {
    && |nodes| == |probes|
    && forall k :: 0 <= k < |nodes| ==>
         var n, p := nodes[k], probes[k];
         && n.id == "" && n.displayName == p.proxy.name && n.proxy == Some(p.proxy)
         && n.alive && !n.activationRequired
         && n.sourceId == item.id && n.sourceName == item.name && n.originPool == item.group && n.pool == ""
         && n.metrics == Metrics(p.delayMs, p.speedMbps, p.stabilityRatio, 0, 0) && n.score == 0.0 && n.priority == 0
  }

  ghost predicate DistinctIds(items: seq<Subscription>) {
    forall i, j :: 0 <= i < j < |items| ==> items[i].id != items[j].id
  }

  /** A source is reported complete only with all the nodes of its finished test, excluded only as a
      left-out emergency subscription, and failed only with the reason of its test. */
  ghost predicate Faithful(items: seq<Subscription>, wanted: set<string>, includeEmergency: bool,
          attempt: string -> Attempt, r: ScanResult) {
    && NoRepeats(r.completed) && NoRepeats(r.excluded)
    && (forall id :: id in r.excluded <==> exists item <- items :: item.id == id && Excluded(includeEmergency, item))
    && (forall id :: id in r.completed <==> id in r.sources)
    && (forall id <- r.completed :: exists item <- items ::
          && item.id == id && Eligible(includeEmergency, wanted, item)
          && attempt(id).Qualified? && AreFound(item, attempt(id).probes, r.sources[id]))
    && (forall id <- r.failures :: id !in r.completed && match attempt(id)
          case CacheUnavailable => r.failures[id] == "cache_unavailable"
          case NoSupportedNodes => r.failures[id] == "no_supported_nodes"
          case QualifyError(reason) => r.failures[id] == reason
          case _ => false)
  }

  /** Which subscriptions are tested, in order. */
  method Select(items: seq<Subscription>, wanted: set<string>, includeEmergency: bool)
    returns (eligible: seq<Subscription>, excluded: seq<string>)
    requires DistinctIds(items)
    ensures DistinctIds(eligible) && NoRepeats(excluded)
    ensures forall item :: item in eligible <==> item in items && Eligible(includeEmergency, wanted, item)
    ensures forall id :: id in excluded <==> exists item <- items :: item.id == id && Excluded(includeEmergency, item)
  {
    eligible, excluded := [], [];
    for i := 0 to |items|
      invariant DistinctIds(eligible) && NoRepeats(excluded)
      invariant forall item :: item in eligible <==> item in items[..i] && Eligible(includeEmergency, wanted, item)
      invariant forall id :: id in excluded <==>
                  exists item <- items[..i] :: item.id == id && Excluded(includeEmergency, item)
    {
      var item := items[i];
      assert items[..i + 1] == items[..i] + [item];
      assert forall other <- items[..i] :: other.id != item.id;
      assert item.id !in excluded;
      if !includeEmergency && item.group == EMERGENCY_GROUP {
        excluded := excluded + [item.id];
        continue;
      }
      if item.enabled && (wanted == {} || item.id in wanted) {
        eligible := eligible + [item];
      }
    }
    assert items[..|items|] == items;
  }

  /** `stopped(i)` tells whether the scan is cancelled before the i-th eligible subscription. */
  method RunWhitelist(items: seq<Subscription>, wanted: set<string>, includeEmergency: bool,
                      attempt: string -> Attempt, stopped: nat -> bool)
    returns (result: ScanResult, cancelled: bool)
    requires DistinctIds(items)
    ensures Faithful(items, wanted, includeEmergency, attempt, result)
    ensures !cancelled ==> forall item <- items :: Eligible(includeEmergency, wanted, item) ==>
              item.id in result.completed || item.id in result.failures
  {
    var eligible, excluded := Select(items, wanted, includeEmergency);
    result := ScanResult(map[], [], excluded, map[]);
    cancelled := false;
    for i := 0 to |eligible|
      invariant Faithful(items, wanted, includeEmergency, attempt, result)
      invariant forall id :: id in result.completed ==> exists item <- eligible[..i] :: item.id == id
      invariant forall item <- eligible[..i] :: item.id in result.completed || item.id in result.failures
    {
      if stopped(i) {
        return result, true;
      }
      var item := eligible[i];
      assert eligible[..i + 1] == eligible[..i] + [item];
      assert item.id !in result.completed by {
        assert forall other <- eligible[..i] :: other.id != item.id;
      }
      match attempt(item.id) {
        case CacheUnavailable => result := result.(failures := result.failures[item.id := "cache_unavailable"]);
        case NoSupportedNodes => result := result.(failures := result.failures[item.id := "no_supported_nodes"]);
        case Interrupted => return result, true;
        case QualifyError(reason) => result := result.(failures := result.failures[item.id := reason]);
        case Qualified(probes) =>
          var nodes := CollectNodes(item, probes);
          result := Completed(items, wanted, includeEmergency, attempt, result, item, nodes);
      }
    }
    assert eligible[..|eligible|] == eligible;
  }

  method CollectNodes(item: Subscription, probes: seq<Probe>) returns (nodes: seq<Node>)
    ensures AreFound(item, probes, nodes)
  {
    nodes := [];
    for k := 0 to |probes|
      invariant AreFound(item, probes[..k], nodes)
    {
      var p := probes[k];
      nodes := nodes + [Node("", p.proxy.name, "", item.group, 0, true, false,
                             Metrics(p.delayMs, p.speedMbps, p.stabilityRatio, 0, 0), 0.0, item.id, item.name,
                             Some(p.proxy))];
    }
    assert probes[..|probes|] == probes;
  }

  method Completed(items: seq<Subscription>, wanted: set<string>, includeEmergency: bool, attempt: string -> Attempt,
          before: ScanResult, item: Subscription, nodes: seq<Node>) returns (result: ScanResult)
    requires Faithful(items, wanted, includeEmergency, attempt, before)
    requires item in items && Eligible(includeEmergency, wanted, item) && item.id !in before.completed
    requires attempt(item.id).Qualified? && AreFound(item, attempt(item.id).probes, nodes)
    ensures Faithful(items, wanted, includeEmergency, attempt, result)
    ensures result == before.(sources := before.sources[item.id := nodes], completed := before.completed + [item.id])
  {
    result := before.(sources := before.sources[item.id := nodes], completed := before.completed + [item.id]);
  }

  // ----- Storing

  function Drops(ids: seq<string>): (ops: seq<ScanOp>)
    ensures |ops| == |ids|
  {
    seq(|ids|, i requires 0 <= i < |ids| => Drop(ids[i]))
  }

  function Refills(ids: seq<string>, sources: map<string, seq<Node>>): (ops: seq<ScanOp>)
    ensures |ops| == |ids|
  {
    seq(|ids|, i requires 0 <= i < |ids| => Refill(ids[i], if ids[i] in sources then sources[ids[i]] else []))
  }

  function OpsOf(r: ScanResult): seq<ScanOp> {
    Drops(r.excluded) + Refills(r.completed, r.sources)
  }

  lemma {:induction false} ApplyNext(env: Env, s: State, ops: seq<ScanOp>, op: ScanOp)
    requires op.source != ""
    ensures Transition(env, ApplyOps(env, s, ops), AsCommand(op)).Success?
    ensures ApplyOps(env, s, ops + [op]) == Transition(env, ApplyOps(env, s, ops), AsCommand(op)).value.state
  {
    hide Normalize, Keep, Admit;
    assert (ops + [op])[..|ops|] == ops;
  }

  /** Excluded sources are removed first, then each completed one is replaced. */
  method ApplyResult(env: Env, s: State, r: ScanResult) returns (t: State)
    requires "" !in r.excluded && "" !in r.completed
    ensures t == ApplyOps(env, s, OpsOf(r))
  {
    hide Transition, ApplyOps;
    t := s;
    var all := r.excluded;
    NoOps(env, s);
    for i := 0 to |all|
      invariant t == ApplyOps(env, s, Drops(all[..i]))
    {
      ghost var done := Drops(all[..i]);
      assert Drops(all[..i + 1]) == done + [Drop(all[i])];
      ApplyNext(env, s, done, Drop(all[i]));
      var reply := RunTransition(env, t, RemoveSource(all[i]));
      t := reply.value.state;
    }
    assert all[..|all|] == all;
    assert Drops(all) + Refills(r.completed[..0], r.sources) == Drops(all);
    for i := 0 to |r.completed|
      invariant t == ApplyOps(env, s, Drops(all) + Refills(r.completed[..i], r.sources))
    {
      var id := r.completed[i];
      var nodes := if id in r.sources then r.sources[id] else [];
      ghost var done := Drops(all) + Refills(r.completed[..i], r.sources);
      assert Drops(all) + Refills(r.completed[..i + 1], r.sources) == done + [Refill(id, nodes)];
      ApplyNext(env, s, done, Refill(id, nodes));
      var reply := RunTransition(env, t, ReplaceSource(id, nodes));
      t := reply.value.state;
    }
    assert r.completed[..|r.completed|] == r.completed;
  }

  lemma {:induction false} NoOps(env: Env, s: State)
    ensures ApplyOps(env, s, []) == s
  {
  }

  ghost predicate FaithfulRun(env: Env, items: seq<Subscription>, wanted: set<string>, includeEmergency: bool,
          attempt: string -> Attempt, r: ScanResult) {
    && DistinctIds(items) && (forall item <- items :: item.id != "")
    && (forall source, proxy :: |env.digest(source, proxy)| == 16)
    && Faithful(items, wanted, includeEmergency, attempt, r)
  }

  lemma {:induction false} CompletedIsOwned(env: Env, items: seq<Subscription>, wanted: set<string>,
          includeEmergency: bool, attempt: string -> Attempt, r: ScanResult, id: string)
    requires FaithfulRun(env, items, wanted, includeEmergency, attempt, r) && id in r.completed
    ensures id in r.sources && id !in r.excluded && OwnsOp(env, SourceOf, Refill(id, r.sources[id]))
  {
    var item :| item in items && item.id == id && Eligible(includeEmergency, wanted, item)
                && AreFound(item, attempt(id).probes, r.sources[id]);
    assert forall other <- items :: other.id == id ==> other == item;
    ScannedNodesAreOwned(env, id, r.sources[id]);
  }

  /** The operations of a faithful result concern distinct sources and bring in per-source IDs. */
  lemma {:induction false} ResultIsOwned(env: Env, items: seq<Subscription>, wanted: set<string>,
          includeEmergency: bool, attempt: string -> Attempt, r: ScanResult)
    requires FaithfulRun(env, items, wanted, includeEmergency, attempt, r)
    ensures DistinctSources(OpsOf(r))
    ensures forall op <- OpsOf(r) :: OwnsOp(env, SourceOf, op)
    ensures forall id :: id in Touched(OpsOf(r)) <==> id in r.excluded || id in r.completed
  {
    hide OwnsOp;
    forall id | id in r.completed
      ensures id in r.sources && id !in r.excluded && OwnsOp(env, SourceOf, Refill(id, r.sources[id]))
    {
      CompletedIsOwned(env, items, wanted, includeEmergency, attempt, r, id);
    }
    var ops := OpsOf(r);
    forall i | 0 <= i < |ops|
      ensures OwnsOp(env, SourceOf, ops[i])
    {
      if i >= |r.excluded| {
        assert ops[i].source == r.completed[i - |r.excluded|];
      } else {
        assert r.excluded[i] in r.excluded;
        var item :| item in items && item.id == r.excluded[i];
        ExcludedIsOwned(env, items, r.excluded[i]);
      }
    }
    TouchedSources(r);
  }

  lemma {:induction false} ExcludedIsOwned(env: Env, items: seq<Subscription>, id: string)
    requires forall item <- items :: item.id != ""
    requires exists item :: item in items && item.id == id
    ensures OwnsOp(env, SourceOf, Drop(id))
  {
  }

  lemma {:induction false} TouchedSources(r: ScanResult)
    ensures forall id :: id in Touched(OpsOf(r)) <==> id in r.excluded || id in r.completed
  {
    var ops := OpsOf(r);
    forall id
      ensures id in Touched(ops) <==> id in r.excluded || id in r.completed
    {
      if id in Touched(ops) {
        var i :| 0 <= i < |ops| && ops[i].source == id;
        assert id == if i < |r.excluded| then r.excluded[i] else r.completed[i - |r.excluded|];
      } else {
        forall i | 0 <= i < |r.excluded|
          ensures r.excluded[i] != id
        {
          assert ops[i] in ops;
        }
        forall i | 0 <= i < |r.completed|
          ensures r.completed[i] != id
        {
          assert ops[|r.excluded| + i] in ops;
        }
      }
    }
  }

  /** A scan, finished or cancelled, replaces completed sources, drops excluded ones and keeps exactly
      the nodes of every other source; the order in which it is stored does not matter. */
  lemma {:induction false} ScanIsSourceAtomic(env: Env, s: State, items: seq<Subscription>, wanted: set<string>,
          includeEmergency: bool, attempt: string -> Attempt, r: ScanResult, source: string, ops: seq<ScanOp>)
    requires FaithfulRun(env, items, wanted, includeEmergency, attempt, r)
    requires Canonical(env, s) && Owns(SourceOf, s.nodes)
    requires multiset(ops) == multiset(OpsOf(r)) && DistinctSources(ops)
    ensures ApplyOps(env, s, ops) == ApplyOps(env, s, OpsOf(r))
    ensures source !in r.excluded && source !in r.completed ==>
              ((set b | b in BodySet(env, ApplyOps(env, s, OpsOf(r)).nodes) && b.sourceId == source)
               == (set b | b in BodySet(env, s.nodes) && b.sourceId == source))
    ensures Canonical(env, ApplyOps(env, s, OpsOf(r))) && Owns(SourceOf, ApplyOps(env, s, OpsOf(r)).nodes)
  {
    hide FaithfulRun, Canonical, Owns, BodySet, OwnsOp, ApplyOps, OpsOf, Touched;
    ResultIsOwned(env, items, wanted, includeEmergency, attempt, r);
    ScanOrderIsIrrelevant(env, SourceOf, s, OpsOf(r), ops);
    OpsOutcome(env, SourceOf, s, OpsOf(r));
    if source !in r.excluded && source !in r.completed {
      UntouchedSourcesKeepNodes(env, SourceOf, s, OpsOf(r), source);
    }
  }
}
