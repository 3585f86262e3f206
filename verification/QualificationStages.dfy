/** Who goes on from stage to stage, told from the answers of the backend alone. */
module QualificationStages {
  import opened Wrappers
  import opened SpeedTest
  import opened Qualification
  import StableSort

  // ----- Counting

  lemma {:induction false} PushCounts(s: seq<Ranked>, y: Ranked, x: Ranked)
    ensures multiset(s + [y])[x] == multiset(s)[x] + if x == y then 1 else 0
  {
    assert multiset(s + [y]) == multiset(s) + multiset{y};
  }

  /** The places of the answers that make `x`. */
  ghost function Answered(proxies: seq<Proxy>, latencies: seq<Latency>, x: Ranked): set<nat>
    requires |proxies| == |latencies|
  {
    set i: nat | i < |proxies| && latencies[i].alive && x == Ranked(latencies[i].seconds, proxies[i])
  }

  lemma {:induction false} AnsweredStep(proxies: seq<Proxy>, latencies: seq<Latency>, x: Ranked)
    requires |proxies| == |latencies|
    ensures proxies == [] ==> Answered(proxies, latencies, x) == {}
    ensures proxies != [] ==>
              var n := |proxies| - 1;
              Answered(proxies, latencies, x) ==
              Answered(proxies[..n], latencies[..n], x)
              + (if latencies[n].alive && x == Ranked(latencies[n].seconds, proxies[n]) then {n} else {})
              && n !in Answered(proxies[..n], latencies[..n], x)
  {
  }

  lemma {:induction false} AliveCount(proxies: seq<Proxy>, latencies: seq<Latency>, x: Ranked)
    requires |proxies| == |latencies|
    ensures multiset(AliveOf(proxies, latencies))[x] == |Answered(proxies, latencies, x)|
  {
    hide Answered;
    AnsweredStep(proxies, latencies, x);
    if proxies != [] {
      var n := |proxies| - 1;
      var y, alive := Ranked(latencies[n].seconds, proxies[n]), latencies[n].alive;
      AliveCount(proxies[..n], latencies[..n], x);
      CountOn(AliveOf(proxies[..n], latencies[..n]), AliveOf(proxies, latencies), y, alive, x,
        Answered(proxies[..n], latencies[..n], x), Answered(proxies, latencies, x), n);
    }
  }

  /** One more item, if it passes, and one more place, if it is the item asked for. */
  lemma {:induction false} CountOn(front: seq<Ranked>, all: seq<Ranked>, y: Ranked, passes: bool, x: Ranked,
          before: set<nat>, after: set<nat>, n: nat)
    requires all == front + (if passes then [y] else []) && n !in before
    requires after == before + (if passes && x == y then {n} else {}) && multiset(front)[x] == |before|
    ensures multiset(all)[x] == |after|
  {
    PushCounts(front, y, x);
    assert front + [] == front;
  }

  /** The evidence lets a node through: its own status says so, or its country is known and allowed. */
  predicate Admissible(excluded: set<string>, e: GeoEvidence) {
    e.status == "geo_qualified" || (e.status == "" && e.ok && e.country != "" && e.country !in excluded)
  }

  ghost function Admitted(items: seq<Ranked>, excluded: set<string>, evidence: seq<GeoEvidence>, x: Ranked): set<nat>
    requires |items| == |evidence|
  {
    set i: nat | i < |items| && Admissible(excluded, evidence[i]) && x == items[i]
  }

  lemma {:induction false} AdmittedStep(items: seq<Ranked>, excluded: set<string>, evidence: seq<GeoEvidence>,
          x: Ranked)
    requires |items| == |evidence|
    ensures items == [] ==> Admitted(items, excluded, evidence, x) == {}
    ensures items != [] ==>
              var n := |items| - 1;
              Admitted(items, excluded, evidence, x) ==
              Admitted(items[..n], excluded, evidence[..n], x)
              + (if Admissible(excluded, evidence[n]) && x == items[n] then {n} else {})
              && n !in Admitted(items[..n], excluded, evidence[..n], x)
  {
  }

  lemma {:induction false} PassedCount(items: seq<Ranked>, excluded: set<string>, evidence: seq<GeoEvidence>, x: Ranked)
    requires |items| == |evidence|
    ensures multiset(GeoPassed(items, GeoStatuses(excluded, evidence)))[x] == |Admitted(items, excluded, evidence, x)|
  {
    hide Admitted;
    AdmittedStep(items, excluded, evidence, x);
    if items != [] {
      var n := |items| - 1;
      var statuses, passes := GeoStatuses(excluded, evidence), Admissible(excluded, evidence[n]);
      PassedCount(items[..n], excluded, evidence[..n], x);
      assert statuses[..n] == GeoStatuses(excluded, evidence[..n]) && (statuses[n] == "geo_qualified" <==> passes);
      hide GeoStatuses, Admissible;
      CountOn(GeoPassed(items[..n], statuses[..n]), GeoPassed(items, statuses), items[n], passes, x,
        Admitted(items[..n], excluded, evidence[..n], x), Admitted(items, excluded, evidence, x), n);
    }
  }

  ghost function Fit(proxies: seq<Proxy>, ms: seq<Measurement>, x: Ranked): set<nat>
    requires |proxies| == |ms|
  {
    set k: nat | k < |proxies| && (ms[k].status == "qualified" || ms[k].status == "speed_unavailable")
                 && x == Ranked(ms[k].rate, proxies[k])
  }

  lemma {:induction false} FitStep(proxies: seq<Proxy>, ms: seq<Measurement>, x: Ranked)
    requires |proxies| == |ms|
    ensures proxies == [] ==> Fit(proxies, ms, x) == {}
    ensures proxies != [] ==>
              var n := |proxies| - 1;
              Fit(proxies, ms, x) ==
              Fit(proxies[..n], ms[..n], x)
              + (if (ms[n].status == "qualified" || ms[n].status == "speed_unavailable")
                    && x == Ranked(ms[n].rate, proxies[n]) then {n} else {})
              && n !in Fit(proxies[..n], ms[..n], x)
  {
  }

  lemma {:induction false} FastCount(proxies: seq<Proxy>, ms: seq<Measurement>, x: Ranked)
    requires |proxies| == |ms|
    ensures multiset(Fast(proxies, ms))[x] == |Fit(proxies, ms, x)|
  {
    hide Fit;
    FitStep(proxies, ms, x);
    if proxies != [] {
      var n := |proxies| - 1;
      var y, passes := Ranked(ms[n].rate, proxies[n]), ms[n].status == "qualified"
          || ms[n].status == "speed_unavailable";
      FastCount(proxies[..n], ms[..n], x);
      CountOn(Fast(proxies[..n], ms[..n]), Fast(proxies, ms), y, passes, x,
        Fit(proxies[..n], ms[..n], x), Fit(proxies, ms, x), n);
    }
  }

  lemma {:induction false} ProxyAt(items: seq<Ranked>, k: nat)
    requires k < |items|
    ensures ProxiesOf(items)[k] == items[k].proxy
  {
    if k < |items| - 1 {
      ProxyAt(items[..|items| - 1], k);
    }
  }

  /** The proxies of the first items, all of them without a positive limit. */
  ghost predicate FirstOf(proxies: seq<Proxy>, items: seq<Ranked>, limit: int) {
    && |proxies| == (if 0 < limit < |items| then limit else |items|)
    && forall k :: 0 <= k < |proxies| ==> proxies[k] == items[k].proxy
  }

  lemma {:induction false} CappedAreFirst(items: seq<Ranked>, limit: int)
    ensures FirstOf(ProxiesOf(Capped(items, limit)), items, limit)
  {
    hide ProxiesOf;
    forall k: nat | k < |Capped(items, limit)|
      ensures ProxiesOf(Capped(items, limit))[k] == items[k].proxy
    {
      ProxyAt(Capped(items, limit), k);
    }
  }

  // ----- The stages

  /** Of the proxies tested by TCP go on those that answered, each with its latency and as often as it was given; of
      the first of these, as many as the limit allows, those that answered by URL, with that latency. */
  lemma {:induction false} AnsweringGoOn(pool: string, proxies: seq<Proxy>, s: Settings, b: Backend, x: Ranked)
      returns (candidates: seq<Proxy>)
    requires Pipeline(pool, proxies, s, b).Success?
    ensures b.tcp(proxies).Success? && |b.tcp(proxies).value| == |proxies|
    ensures multiset(Pipeline(pool, proxies, s, b).value.tcpAlive)[x] == |Answered(proxies, b.tcp(proxies).value, x)|
    ensures FirstOf(candidates, Pipeline(pool, proxies, s, b).value.tcpAlive, s.urlLimit)
    ensures b.url(candidates).Success? && |b.url(candidates).value| == |candidates|
    ensures multiset(Pipeline(pool, proxies, s, b).value.urlAlive)[x] ==
            |Answered(candidates, b.url(candidates).value, x)|
  {
    hide AliveOf, ProxiesOf, GeoPassed, Fast, Measurements, GeoStatuses, Sooner, Faster, Answered, FirstOf, Capped;
    var p := Pipeline(pool, proxies, s, b).value;
    RatesAreOrdered();
    candidates := ProxiesOf(Capped(p.tcpAlive, s.urlLimit));
    CappedAreFirst(p.tcpAlive, s.urlLimit);
    StableSort.SortIsSorted(Sooner, AliveOf(proxies, b.tcp(proxies).value));
    StableSort.SortIsSorted(Sooner, AliveOf(candidates, b.url(candidates).value));
    AliveCount(proxies, b.tcp(proxies).value, x);
    AliveCount(candidates, b.url(candidates).value, x);
  }

  /** Countries are checked exactly if some are excluded and the pool is not the one for restricted networks; then
      those go on whose evidence is admissible. */
  lemma {:induction false} AdmissibleGoOn(pool: string, proxies: seq<Proxy>, s: Settings, b: Backend, x: Ranked)
      returns (evidence: seq<GeoEvidence>)
    requires Pipeline(pool, proxies, s, b).Success?
    ensures var p := Pipeline(pool, proxies, s, b).value;
            && (p.geoEnabled <==> pool != "whitelist" && s.excludedCountries != {})
            && (!p.geoEnabled ==> p.geoAlive == p.urlAlive)
            && (p.geoEnabled ==>
                  && |evidence| == |p.urlAlive|
                  && b.geo.Some? && b.geo.value(ProxiesOf(p.urlAlive)) == Success(evidence)
                  && multiset(p.geoAlive)[x] == |Admitted(p.urlAlive, s.excludedCountries, evidence, x)|)
  {
    hide AliveOf, ProxiesOf, GeoPassed, Fast, Measurements, GeoStatuses, Sooner, Faster, Admitted, Capped,
      StableSort.Sort;
    var p := Pipeline(pool, proxies, s, b).value;
    evidence := [];
    if p.geoEnabled {
      evidence := b.geo.value(ProxiesOf(p.urlAlive)).value;
      PassedCount(p.urlAlive, s.excludedCountries, evidence, x);
    }
  }

  /** On the speed path the first of them, as many as the limit allows, are measured, each measurement is the verdict
      on its own samples, and those qualify that passed or could not be measured; at most `keep` are retained. */
  lemma {:induction false} MeasuredQualify(pool: string, proxies: seq<Proxy>, s: Settings, b: Backend, x: Ranked)
      returns (evidence: seq<SpeedEvidence>)
    requires Pipeline(pool, proxies, s, b).Success? && !Pipeline(pool, proxies, s, b).value.plan.skip
    ensures var p := Pipeline(pool, proxies, s, b).value;
            && FirstOf(p.tested, p.geoAlive, s.speedCandidates) && |p.tested| == |p.measurements|
            && b.speed(p.tested) == Success(evidence) && |evidence| == |p.tested|
            && (forall k :: 0 <= k < |evidence| ==>
                  p.measurements[k] ==
                  Judge(evidence[k], Truncate(p.plan.minimumMbps * 1_000_000.0 / 8.0), s.stabilityRatio, {}))
            && multiset(p.qualified)[x] == |Fit(p.tested, p.measurements, x)|
            && p.retained == (if 0 < s.keep < |p.qualified| then p.qualified[..s.keep] else p.qualified)
  {
    hide Pipeline, ProxiesOf, Fast, Measurements, Faster, Fit, Judge, FirstOf, StableSort.Sort, Truncate;
    var p := Pipeline(pool, proxies, s, b).value;
    SpeedParts(pool, proxies, s, b);
    evidence := b.speed(p.tested).value;
    CappedAreFirst(p.geoAlive, s.speedCandidates);
    SortedCount(Fast(p.tested, p.measurements), x);
    FastCount(p.tested, p.measurements, x);
    MeasurementsAre(evidence, Truncate(p.plan.minimumMbps * 1_000_000.0 / 8.0), s.stabilityRatio);
  }

  lemma {:induction false} SpeedParts(pool: string, proxies: seq<Proxy>, s: Settings, b: Backend)
    requires Pipeline(pool, proxies, s, b).Success? && !Pipeline(pool, proxies, s, b).value.plan.skip
    ensures var p := Pipeline(pool, proxies, s, b).value;
            && p.tested == ProxiesOf(Capped(p.geoAlive, s.speedCandidates))
            && SpeedStage(b, s, p.plan, p.tested) == Success(p.measurements) && |p.tested| == |p.measurements|
            && p.qualified == StableSort.Sort(Faster, Fast(p.tested, p.measurements))
            && p.retained == Capped(p.qualified, s.keep)
  {
    hide TcpStage, UrlStage, GeoStage, SpeedStage, GeoPassed, Fast, PlanSpeed, ProxiesOf, Capped, StableSort.Sort;
  }

  lemma {:induction false} SortedCount(items: seq<Ranked>, x: Ranked)
    ensures multiset(StableSort.Sort(Faster, items))[x] == multiset(items)[x]
  {
    RatesAreOrdered();
    StableSort.SortIsSorted(Faster, items);
  }

  lemma {:induction false} MeasurementsAre(evidence: seq<SpeedEvidence>, threshold: int, stabilityRatio: real)
    ensures forall k :: 0 <= k < |evidence| ==>
              Measurements(evidence, threshold, stabilityRatio)[k] == Judge(evidence[k], threshold, stabilityRatio, {})
  {
    hide Measurements, Judge;
    forall k: nat | k < |evidence|
      ensures Measurements(evidence, threshold, stabilityRatio)[k] ==
              Judge(evidence[k], threshold, stabilityRatio, {})
    {
      MeasurementAt(evidence, threshold, stabilityRatio, k);
    }
  }
}
