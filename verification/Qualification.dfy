/** The qualification pipeline, against an arbitrary backend. */
module Qualification {
  import opened Wrappers
  import opened SpeedTest
  import StableSort

  datatype Proxy = Proxy(name: string, settings: string)

  datatype Ranked = Ranked(value: real, proxy: Proxy)

  datatype Latency = Latency(alive: bool, seconds: real)

  datatype GeoEvidence = GeoEvidence(ok: bool, country: string, status: string)

  datatype Baseline = Baseline(ok: bool, bytesPerSecond: real)

  /** `geo` and `baseline` are optional abilities. */
  datatype Backend = Backend(
    tcp: seq<Proxy> -> Result<seq<Latency>, string>,
    url: seq<Proxy> -> Result<seq<Latency>, string>,
    geo: Option<seq<Proxy> -> Result<seq<GeoEvidence>, string>>,
    baseline: Option<Result<Baseline, string>>,
    speed: seq<Proxy> -> Result<seq<SpeedEvidence>, string>)

  datatype Settings = Settings(skipSpeed: bool, minimumMbps: real, stabilityRatio: real, urlLimit: int,
                               speedCandidates: int, keep: int, excludedCountries: set<string>)

  // ----- Stages

  function AliveOf(proxies: seq<Proxy>, latencies: seq<Latency>): seq<Ranked>
    requires |proxies| == |latencies|
  {
    if proxies == [] then []
    else
      var n := |proxies| - 1;
      AliveOf(proxies[..n], latencies[..n])
      + if latencies[n].alive then [Ranked(latencies[n].seconds, proxies[n])] else []
  }

  predicate Sooner(a: Ranked, b: Ranked) {
    a.value < b.value
  }

  predicate Faster(a: Ranked, b: Ranked) {
    a.value > b.value
  }

  function ProxiesOf(items: seq<Ranked>): (r: seq<Proxy>)
    ensures |r| == |items|
  {
    if items == [] then [] else ProxiesOf(items[..|items| - 1]) + [items[|items| - 1].proxy]
  }

  /** The proxies that answered, quickest first. */
  function Reached(proxies: seq<Proxy>, latencies: seq<Latency>): seq<Ranked>
    requires |proxies| == |latencies|
  {
    StableSort.Sort(Sooner, AliveOf(proxies, latencies))
  }

  /** The first `limit` items; no limit unless it is positive. */
  function Capped<T>(items: seq<T>, limit: int): seq<T> {
    if 0 < limit < |items| then items[..limit] else items
  }

  function GeoStatus(excluded: set<string>, e: GeoEvidence): string {
    if e.status != "" then e.status
    else if !e.ok || e.country == "" then "country_unknown"
    else if e.country in excluded then "country_excluded"
    else "geo_qualified"
  }

  function GeoStatuses(excluded: set<string>, evidence: seq<GeoEvidence>): (r: seq<string>)
    ensures |r| == |evidence|
  {
    if evidence == [] then []
    else GeoStatuses(excluded, evidence[..|evidence| - 1]) + [GeoStatus(excluded, evidence[|evidence| - 1])]
  }

  function GeoPassed(items: seq<Ranked>, statuses: seq<string>): seq<Ranked>
    requires |items| == |statuses|
  {
    if items == [] then []
    else
      var n := |items| - 1;
      GeoPassed(items[..n], statuses[..n]) + if statuses[n] == "geo_qualified" then [items[n]] else []
  }

  function Measurements(evidence: seq<SpeedEvidence>, threshold: int, stabilityRatio: real): (r: seq<Measurement>)
    ensures |r| == |evidence|
  {
    if evidence == [] then []
    else
      var n := |evidence| - 1;
      Measurements(evidence[..n], threshold, stabilityRatio) + [Judge(evidence[n], threshold, stabilityRatio, {})]
  }

  predicate Passes(m: Measurement) {
    m.status == "qualified" || m.status == "speed_unavailable"
  }

  function Fast(proxies: seq<Proxy>, ms: seq<Measurement>): seq<Ranked>
    requires |proxies| == |ms|
  {
    if proxies == [] then []
    else
      var n := |proxies| - 1;
      Fast(proxies[..n], ms[..n]) + if Passes(ms[n]) then [Ranked(ms[n].rate, proxies[n])] else []
  }

  /** Truncation toward zero. */
  function Truncate(x: real): int {
    if x >= 0.0 then x.Floor else -((-x).Floor)
  }

  /** Whether speed is tested, and from which rate. */
  datatype SpeedPlan = SpeedPlan(skip: bool, minimumMbps: real, source: string)

  function PlanSpeed(s: Settings, baseline: Option<Result<Baseline, string>>): SpeedPlan {
    if s.skipSpeed then SpeedPlan(true, s.minimumMbps, "skipped")
    else if baseline.None? then SpeedPlan(false, s.minimumMbps, "configured_fallback")
    else if baseline.value.Failure? || !baseline.value.value.ok || baseline.value.value.bytesPerSecond <= 0.0 then
      SpeedPlan(true, s.minimumMbps, "speed_unavailable")
    else SpeedPlan(false, baseline.value.value.bytesPerSecond * 8.0 / 1_000_000.0 * 0.1, "wan_baseline")
  }

  /** What every stage of one successful pass ended with. */
  datatype Pass = Pass(tcpAlive: seq<Ranked>, urlAlive: seq<Ranked>, geoEnabled: bool, statuses: seq<string>,
                       geoAlive: seq<Ranked>, plan: SpeedPlan, tested: seq<Proxy>, measurements: seq<Measurement>,
                       qualified: seq<Ranked>, retained: seq<Ranked>)

  function Excluded(pool: string, s: Settings): set<string> {
    if pool == "whitelist" then {} else s.excludedCountries
  }

  function TcpStage(b: Backend, proxies: seq<Proxy>): Result<seq<Ranked>, string> {
    match b.tcp(proxies)
    case Failure(e) => Failure(e)
    case Success(answers) =>
      if |answers| != |proxies| then Failure("tcp result count mismatch")
      else Success(Reached(proxies, answers))
  }

  function UrlStage(b: Backend, proxies: seq<Proxy>): Result<seq<Ranked>, string> {
    match b.url(proxies)
    case Failure(e) => Failure(e)
    case Success(answers) =>
      if |answers| != |proxies| then Failure("url result count mismatch")
      else Success(Reached(proxies, answers))
  }

  function GeoStage(b: Backend, excluded: set<string>, items: seq<Ranked>): (r: Result<seq<string>, string>)
    ensures r.Success? && excluded != {} ==> |r.value| == |items|
  {
    if excluded == {} then Success([])
    else if b.geo.None? then Failure("geo backend is required when country exclusions are enabled")
    else
      match b.geo.value(ProxiesOf(items))
      case Failure(e) => Failure(e)
      case Success(answers) =>
        if |answers| != |items| then Failure("geo result count mismatch") else Success(GeoStatuses(excluded, answers))
  }

  function SpeedStage(b: Backend, s: Settings, plan: SpeedPlan, proxies: seq<Proxy>): (r: Result<seq<Measurement>,
          string>)
    ensures r.Success? && !plan.skip ==> |r.value| == |proxies|
  {
    if plan.skip then Success([])
    else
      match b.speed(proxies)
      case Failure(e) => Failure(e)
      case Success(answers) =>
        if |answers| != |proxies| then Failure("speed result count mismatch")
        else Success(Measurements(answers, Truncate(plan.minimumMbps * 1_000_000.0 / 8.0), s.stabilityRatio))
  }

  predicate Fits(p: Pass) {
    && (p.geoEnabled ==> |p.statuses| == |p.urlAlive| && p.geoAlive == GeoPassed(p.urlAlive, p.statuses))
    && (!p.geoEnabled ==> p.statuses == [])
    && |p.tested| == |p.measurements|
  }

  function Pipeline(pool: string, proxies: seq<Proxy>, s: Settings, b: Backend): (r: Result<Pass, string>)
    ensures r.Success? ==> Fits(r.value)
  {
    var tcp := TcpStage(b, proxies);
    if tcp.Failure? then Failure(tcp.error)
    else
      var url := UrlStage(b, ProxiesOf(Capped(tcp.value, s.urlLimit)));
      if url.Failure? then Failure(url.error)
      else
        var excluded := Excluded(pool, s);
        var geo := GeoStage(b, excluded, url.value);
        if geo.Failure? then Failure(geo.error)
        else
          var geoAlive := if excluded == {} then url.value else GeoPassed(url.value, geo.value);
          var plan := PlanSpeed(s, b.baseline);
          var tested := if plan.skip then [] else ProxiesOf(Capped(geoAlive, s.speedCandidates));
          var speed := SpeedStage(b, s, plan, tested);
          if speed.Failure? then Failure(speed.error)
          else
            var qualified := if plan.skip then geoAlive else StableSort.Sort(Faster, Fast(tested, speed.value));
            Success(Pass(tcp.value, url.value, excluded != {}, geo.value, geoAlive, plan, tested, speed.value,
                         qualified, Capped(qualified, s.keep)))
  }

  // ----- What the stages keep

  lemma {:induction false} ProxiesOfAppend(a: seq<Ranked>, b: seq<Ranked>)
    ensures ProxiesOf(a + b) == ProxiesOf(a) + ProxiesOf(b)
  {
    if b == [] {
      assert a + b == a;
    } else {
      var n := |b| - 1;
      assert (a + b)[..|a| + n] == a + b[..n];
      ProxiesOfAppend(a, b[..n]);
    }
  }

  lemma {:induction false} ProxiesOfPush(a: seq<Ranked>, x: Ranked)
    ensures ProxiesOf(a + [x]) == ProxiesOf(a) + [x.proxy]
  {
    assert (a + [x])[..|a|] == a;
  }

  lemma {:induction false} ProxiesOfCons(x: Ranked, s: seq<Ranked>)
    ensures multiset(ProxiesOf([x] + s)) == multiset{x.proxy} + multiset(ProxiesOf(s))
  {
    ProxiesOfAppend([x], s);
    ProxiesOfPush([], x);
    assert [] + [x] == [x];
    hide ProxiesOf;
    assert ProxiesOf([x]) == [x.proxy];
  }

  lemma {:induction false} InsertKeepsProxies(before: (Ranked, Ranked) -> bool, x: Ranked, s: seq<Ranked>)
    ensures multiset(ProxiesOf(StableSort.Insert(before, x, s))) == multiset(ProxiesOf(s)) + multiset{x.proxy}
  {
    hide ProxiesOf;
    ProxiesOfCons(x, s);
    if s == [] {
      assert [x] + s == [x];
    } else {
      assert s == [s[0]] + s[1..];
      ProxiesOfCons(s[0], s[1..]);
      InsertKeepsProxies(before, x, s[1..]);
      ProxiesOfCons(s[0], StableSort.Insert(before, x, s[1..]));
    }
  }

  lemma {:induction false} SortKeepsProxies(before: (Ranked, Ranked) -> bool, s: seq<Ranked>)
    ensures multiset(ProxiesOf(StableSort.Sort(before, s))) == multiset(ProxiesOf(s))
  {
    if s != [] {
      assert s == [s[0]] + s[1..];
      ProxiesOfAppend([s[0]], s[1..]);
      SortKeepsProxies(before, s[1..]);
      InsertKeepsProxies(before, s[0], StableSort.Sort(before, s[1..]));
    }
  }

  lemma {:induction false} OneMore(a: seq<Proxy>, b: seq<Proxy>, x: Proxy)
    requires multiset(a) <= multiset(b)
    ensures multiset(a + [x]) <= multiset(b + [x]) && multiset(a) <= multiset(b + [x])
  {
    assert multiset(a + [x]) == multiset(a) + multiset{x} && multiset(b + [x]) == multiset(b) + multiset{x};
  }

  /** One more proxy, which a stage lets through or drops. */
  lemma {:induction false} StepShrinks(done: seq<Ranked>, proxies: seq<Proxy>, x: Ranked, passes: bool)
    requires multiset(ProxiesOf(done)) <= multiset(proxies)
    ensures multiset(ProxiesOf(done + if passes then [x] else [])) <= multiset(proxies + [x.proxy])
  {
    OneMore(ProxiesOf(done), proxies, x.proxy);
    ProxiesOfPush(done, x);
    assert done + [] == done;
  }

  lemma {:induction false} AliveAreProxies(proxies: seq<Proxy>, latencies: seq<Latency>)
    requires |proxies| == |latencies|
    ensures multiset(ProxiesOf(AliveOf(proxies, latencies))) <= multiset(proxies)
  {
    hide ProxiesOf;
    if proxies == [] {
      assert ProxiesOf([]) == [];
    } else {
      var n := |proxies| - 1;
      AliveAreProxies(proxies[..n], latencies[..n]);
      StepShrinks(AliveOf(proxies[..n], latencies[..n]), proxies[..n], Ranked(latencies[n].seconds, proxies[n]),
          latencies[n].alive);
      assert proxies == proxies[..n] + [proxies[n]];
    }
  }

  lemma {:induction false} PassedAreItems(items: seq<Ranked>, statuses: seq<string>)
    requires |items| == |statuses|
    ensures multiset(ProxiesOf(GeoPassed(items, statuses))) <= multiset(ProxiesOf(items))
  {
    hide ProxiesOf;
    if items != [] {
      var n := |items| - 1;
      PassedAreItems(items[..n], statuses[..n]);
      StepShrinks(GeoPassed(items[..n], statuses[..n]), ProxiesOf(items[..n]), items[n],
          statuses[n] == "geo_qualified");
      ProxiesOfPush(items[..n], items[n]);
      assert items == items[..n] + [items[n]];
    }
  }

  lemma {:induction false} FastAreProxies(proxies: seq<Proxy>, ms: seq<Measurement>)
    requires |proxies| == |ms|
    ensures multiset(ProxiesOf(Fast(proxies, ms))) <= multiset(proxies)
  {
    hide ProxiesOf, Passes;
    if proxies == [] {
      assert ProxiesOf([]) == [];
    } else {
      var n := |proxies| - 1;
      FastAreProxies(proxies[..n], ms[..n]);
      StepShrinks(Fast(proxies[..n], ms[..n]), proxies[..n], Ranked(ms[n].rate, proxies[n]), Passes(ms[n]));
      assert proxies == proxies[..n] + [proxies[n]];
    }
  }

  lemma {:induction false} CappedAreItems(items: seq<Ranked>, limit: int)
    ensures multiset(ProxiesOf(Capped(items, limit))) <= multiset(ProxiesOf(items))
  {
    if 0 < limit < |items| {
      ProxiesOfAppend(items[..limit], items[limit..]);
      assert items == items[..limit] + items[limit..];
    }
  }

  ghost predicate Within(a: seq<Ranked>, b: seq<Ranked>) {
    multiset(ProxiesOf(a)) <= multiset(ProxiesOf(b))
  }

  lemma {:induction false} StageShrinks(proxies: seq<Proxy>, answers: seq<Latency>)
    requires |proxies| == |answers|
    ensures multiset(ProxiesOf(Reached(proxies, answers))) <= multiset(proxies)
  {
    AliveAreProxies(proxies, answers);
    SortKeepsProxies(Sooner, AliveOf(proxies, answers));
  }

  lemma {:induction false} SpeedShrinks(items: seq<Ranked>, limit: int, ms: seq<Measurement>)
    requires |ProxiesOf(Capped(items, limit))| == |ms|
    ensures Within(StableSort.Sort(Faster, Fast(ProxiesOf(Capped(items, limit)), ms)), items)
  {
    var tested := ProxiesOf(Capped(items, limit));
    FastAreProxies(tested, ms);
    SortKeepsProxies(Faster, Fast(tested, ms));
    CappedAreItems(items, limit);
  }

  /** Each stage is a sub-multiset of the one before: nothing is invented or duplicated. */
  lemma {:induction false} StagesShrink(pool: string, proxies: seq<Proxy>, s: Settings, b: Backend)
    requires Pipeline(pool, proxies, s, b).Success?
    ensures var p := Pipeline(pool, proxies, s, b).value;
            && multiset(ProxiesOf(p.tcpAlive)) <= multiset(proxies)
            && Within(p.urlAlive, p.tcpAlive) && Within(p.geoAlive, p.urlAlive)
            && Within(p.qualified, p.geoAlive) && Within(p.retained, p.qualified)
  {
    hide StableSort.Sort, AliveOf, GeoPassed, Fast, ProxiesOf, Measurements, GeoStatuses;
    var p := Pipeline(pool, proxies, s, b).value;
    StageShrinks(proxies, b.tcp(proxies).value);
    var candidates := ProxiesOf(Capped(p.tcpAlive, s.urlLimit));
    CappedAreItems(p.tcpAlive, s.urlLimit);
    StageShrinks(candidates, b.url(candidates).value);
    if p.geoEnabled {
      PassedAreItems(p.urlAlive, p.statuses);
    }
    if !p.plan.skip {
      SpeedShrinks(p.geoAlive, s.speedCandidates, p.measurements);
    }
    CappedAreItems(p.qualified, s.keep);
  }

  /** Retained ≤ qualified ≤ passed by country ≤ reached by URL ≤ reached by TCP ≤ input. */
  lemma {:induction false} CountsNarrow(pool: string, proxies: seq<Proxy>, s: Settings, b: Backend)
    requires Pipeline(pool, proxies, s, b).Success?
    ensures var p := Pipeline(pool, proxies, s, b).value;
            |p.retained| <= |p.qualified| <= |p.geoAlive| <= |p.urlAlive| <= |p.tcpAlive| <= |proxies|
    ensures multiset(ProxiesOf(Pipeline(pool, proxies, s, b).value.retained)) <= multiset(proxies)
  {
    hide Pipeline;
    var p := Pipeline(pool, proxies, s, b).value;
    StagesShrink(pool, proxies, s, b);
    Smaller(ProxiesOf(p.tcpAlive), proxies);
    Smaller(ProxiesOf(p.urlAlive), ProxiesOf(p.tcpAlive));
    Smaller(ProxiesOf(p.geoAlive), ProxiesOf(p.urlAlive));
    Smaller(ProxiesOf(p.qualified), ProxiesOf(p.geoAlive));
    Smaller(ProxiesOf(p.retained), ProxiesOf(p.qualified));
  }

  lemma {:induction false} Smaller<T>(a: seq<T>, b: seq<T>)
    requires multiset(a) <= multiset(b)
    ensures |a| <= |b|
  {
    assert multiset(b) == multiset(a) + (multiset(b) - multiset(a));
    assert |multiset(a)| == |a| && |multiset(b)| == |b|;
  }

  lemma {:induction false} RatesAreOrdered()
    ensures StableSort.StrictWeak(Sooner) && StableSort.StrictWeak(Faster)
  {
  }

  /** On the speed path nothing dropped is faster than anything kept; the rates are those measured. */
  lemma {:induction false} FastestAreKept(pool: string, proxies: seq<Proxy>, s: Settings, b: Backend, dropped: nat,
          kept: nat)
    requires Pipeline(pool, proxies, s, b).Success?
    requires var p := Pipeline(pool, proxies, s, b).value;
             !p.plan.skip && kept < |p.retained| <= dropped < |p.qualified|
    ensures var p := Pipeline(pool, proxies, s, b).value;
            && p.retained == p.qualified[..s.keep]
            && p.qualified[dropped].value <= p.retained[kept].value
            && multiset(p.qualified) == multiset(Fast(p.tested, p.measurements))
  {
    hide GeoPassed, AliveOf, Fast, Measurements, GeoStatuses;
    var p := Pipeline(pool, proxies, s, b).value;
    RatesAreOrdered();
    StableSort.SortIsSorted(Faster, Fast(p.tested, p.measurements));
  }

  lemma {:induction false} SortedPush(items: seq<Ranked>, x: Ranked, part: seq<Ranked>)
    requires StableSort.Sorted(Sooner, items + [x]) && StableSort.Sorted(Sooner, part)
    requires forall y <- part :: y in items
    ensures StableSort.Sorted(Sooner, part + [x])
  {
    var all := items + [x];
    forall i | 0 <= i < |part|
      ensures !Sooner(x, part[i])
    {
      assert part[i] in items;
      var k :| 0 <= k < |items| && items[k] == part[i];
      assert all[k] == part[i] && all[|items|] == x;
    }
  }

  lemma {:induction false} PassedStaySorted(items: seq<Ranked>, statuses: seq<string>)
    requires |items| == |statuses| && StableSort.Sorted(Sooner, items)
    ensures StableSort.Sorted(Sooner, GeoPassed(items, statuses))
    ensures forall x <- GeoPassed(items, statuses) :: x in items
  {
    hide Sooner;
    if items != [] {
      var n := |items| - 1;
      assert items == items[..n] + [items[n]];
      assert StableSort.Sorted(Sooner, items[..n]);
      PassedStaySorted(items[..n], statuses[..n]);
      SortedPush(items[..n], items[n], GeoPassed(items[..n], statuses[..n]));
    }
  }

  /** Limits cut off the slowest: every stage is in order of the latest latency, so what the URL test, the
      speed test and, without a speed test, the result leave out is not quicker than what they take. */
  lemma {:induction false} QuickestGoOn(pool: string, proxies: seq<Proxy>, s: Settings, b: Backend, i: nat, j: nat)
    requires Pipeline(pool, proxies, s, b).Success? && i < j
    ensures var p := Pipeline(pool, proxies, s, b).value;
            && (j < |p.tcpAlive| ==> p.tcpAlive[i].value <= p.tcpAlive[j].value)
            && (j < |p.geoAlive| ==> p.geoAlive[i].value <= p.geoAlive[j].value)
            && multiset(p.tcpAlive) == multiset(AliveOf(proxies, b.tcp(proxies).value))
            && (!p.plan.skip ==> p.tested == ProxiesOf(Capped(p.geoAlive, s.speedCandidates)))
            && (p.plan.skip ==> p.qualified == p.geoAlive && p.retained == Capped(p.geoAlive, s.keep))
  {
    hide AliveOf, ProxiesOf, GeoPassed, Fast, Measurements, GeoStatuses, Faster;
    var p := Pipeline(pool, proxies, s, b).value;
    RatesAreOrdered();
    var candidates := ProxiesOf(Capped(p.tcpAlive, s.urlLimit));
    StableSort.SortIsSorted(Sooner, AliveOf(proxies, b.tcp(proxies).value));
    StableSort.SortIsSorted(Sooner, AliveOf(candidates, b.url(candidates).value));
    if p.geoEnabled {
      PassedStaySorted(p.urlAlive, p.statuses);
    }
    assert j < |p.tcpAlive| ==> !Sooner(p.tcpAlive[j], p.tcpAlive[i]);
    assert j < |p.geoAlive| ==> !Sooner(p.geoAlive[j], p.geoAlive[i]);
  }

  // ----- What the speed plan means

  /** The link was measured and is usable. */
  predicate LinkMeasured(b: Backend) {
    b.baseline.Some? && b.baseline.value.Success? && b.baseline.value.value.ok
        && b.baseline.value.value.bytesPerSecond > 0.0
  }

  lemma {:induction false} MeasurementAt(evidence: seq<SpeedEvidence>, threshold: int, stabilityRatio: real, k: nat)
    requires k < |evidence|
    ensures Measurements(evidence, threshold, stabilityRatio)[k] == Judge(evidence[k], threshold, stabilityRatio, {})
  {
    hide Judge;
    if k < |evidence| - 1 {
      MeasurementAt(evidence[..|evidence| - 1], threshold, stabilityRatio, k);
    }
  }

  /** Speed is skipped exactly on request or when a link that can be measured turns out unusable; then no node is
      tested and none fails. Otherwise a node that qualifies reached the threshold in both samples, and where the
      link was measured that is a tenth of it, down to a byte. */
  lemma {:induction false} SpeedPlanHolds(pool: string, proxies: seq<Proxy>, s: Settings, b: Backend, k: nat)
    requires Pipeline(pool, proxies, s, b).Success?
    ensures var p := Pipeline(pool, proxies, s, b).value;
            && (p.plan.skip <==> s.skipSpeed || (b.baseline.Some? && !LinkMeasured(b)))
            && (p.plan.skip ==> p.tested == [] && p.measurements == [] && p.qualified == p.geoAlive)
            && (!p.plan.skip && b.baseline.None? ==> p.plan.minimumMbps == s.minimumMbps)
            && (!p.plan.skip && k < |p.measurements| && p.measurements[k].status == "qualified" ==>
                  && p.measurements[k].rate >= Truncate(p.plan.minimumMbps * 1_000_000.0 / 8.0) as real
                  && (b.baseline.Some? ==> p.measurements[k].rate > 0.1 * b.baseline.value.value.bytesPerSecond - 1.0))
  {
    hide GeoPassed, AliveOf, Fast, Measurements, GeoStatuses, StableSort.Sort, ProxiesOf, Judge;
    var p := Pipeline(pool, proxies, s, b).value;
    if !p.plan.skip && k < |p.measurements| {
      var evidence, threshold := b.speed(p.tested).value, Truncate(p.plan.minimumMbps * 1_000_000.0 / 8.0);
      MeasurementAt(evidence, threshold, s.stabilityRatio, k);
      QualifiesIff(evidence[k], threshold, s.stabilityRatio);
      if b.baseline.Some? {
        assert p.plan.minimumMbps * 1_000_000.0 / 8.0 == 0.1 * b.baseline.value.value.bytesPerSecond;
      }
    }
  }
}
