/** Judging the two speed samples of a node. */
module SpeedTest {

  /** A rate may also be NaN or infinite. */
  datatype Rate = Finite(value: real) | NotFinite

  datatype Download = Download(ok: bool, httpCode: int, bytes: int, rate: Rate, expectedBytes: int)

  datatype SpeedEvidence = SpeedEvidence(coreOk: bool, unavailable: bool, geoStatus: string, country: string,
                                         downloads: seq<Download>)

  datatype Measurement = Measurement(status: string, rate: real, country: string)

  const SPEED_BYTES := 10_485_760

  function Expected(d: Download): int {
    if d.expectedBytes <= 0 then SPEED_BYTES else d.expectedBytes
  }

  function Fault(d: Download): string {
    if !d.ok then "speed_failed"
    else if (d.httpCode != 200 && d.httpCode != 206) || d.bytes < Expected(d) then "speed_incomplete"
    else if d.rate.NotFinite? then "speed_invalid"
    else ""
  }

  /** The first faulty sample. */
  function FirstFault(ds: seq<Download>): (k: nat)
    ensures k <= |ds| && (forall i :: 0 <= i < k ==> Fault(ds[i]) == "")
    ensures k < |ds| ==> Fault(ds[k]) != ""
  {
    if ds == [] then 0
    else if Fault(ds[0]) != "" then 0
    else 1 + FirstFault(ds[1..])
  }

  function Value(r: Rate): real {
    if r.Finite? then r.value else 0.0
  }

  function Rates(ds: seq<Download>): (r: seq<real>)
    ensures |r| == |ds|
  {
    seq(|ds|, i requires 0 <= i < |ds| => Value(ds[i].rate))
  }

  /** The highest rate, at least zero. */
  function Highest(values: seq<real>): (r: real)
    ensures r >= 0.0 && (forall v <- values :: v <= r) && (r == 0.0 || r in values)
  {
    if values == [] then 0.0
    else
      var n := |values| - 1;
      var front := Highest(values[..n]);
      assert values == values[..n] + [values[n]];
      if values[n] > front then values[n] else front
  }

  function Lower(a: real, b: real): real {
    if a < b then a else b
  }

  function Upper(a: real, b: real): real {
    if a < b then b else a
  }

  /** Too slow, even though the sample could not be finished. */
  predicate Crawls(d: Download, threshold: int) {
    d.ok && d.rate.Finite? && 0.0 < d.rate.value < threshold as real
  }

  function FirstCrawl(ds: seq<Download>, threshold: int): (k: nat)
    ensures k <= |ds| && (forall i :: 0 <= i < k ==> !Crawls(ds[i], threshold))
    ensures k < |ds| ==> Crawls(ds[k], threshold)
  {
    if ds == [] then 0 else if Crawls(ds[0], threshold) then 0 else 1 + FirstCrawl(ds[1..], threshold)
  }

  function JudgePair(a: real, b: real, threshold: int, stabilityRatio: real, country: string): Measurement {
    var slowest, fastest := Lower(a, b), Upper(a, b);
    if slowest < threshold as real then Measurement("slow", fastest, country)
    else if fastest != 0.0 && slowest / fastest < stabilityRatio then Measurement("unstable", fastest, country)
    else Measurement("qualified", slowest, country)
  }

  function Judge(e: SpeedEvidence, threshold: int, stabilityRatio: real, excluded: set<string>): Measurement {
    var ds := e.downloads;
    if !e.coreOk then Measurement("core_failed", 0.0, "")
    else if excluded != {} && e.geoStatus != "" then Measurement(e.geoStatus, 0.0, e.country)
    else if excluded != {} && e.country == "" then Measurement("country_unknown", 0.0, "")
    else if excluded != {} && e.country in excluded then Measurement("country_excluded", 0.0, e.country)
    else if e.unavailable then
      var k := FirstCrawl(ds, threshold);
      if k < |ds| then Measurement("slow", Value(ds[k].rate), e.country)
          else Measurement("speed_unavailable", 0.0, e.country)
    else
      var k := FirstFault(ds);
      if k < |ds| then Measurement(Fault(ds[k]), Highest(Rates(ds)[..k]), e.country)
      else if |ds| != 2 then Measurement("speed_invalid", Highest(Rates(ds)), e.country)
      else JudgePair(Value(ds[0].rate), Value(ds[1].rate), threshold, stabilityRatio, e.country)
  }

  lemma {:induction false} FirstFaultAt(ds: seq<Download>, k: nat)
    requires k <= |ds| && (forall i :: 0 <= i < k ==> Fault(ds[i]) == "") && (k < |ds| ==> Fault(ds[k]) != "")
    ensures FirstFault(ds) == k
  {
    if k > 0 {
      FirstFaultAt(ds[1..], k - 1);
    }
  }

  lemma {:induction false} FirstCrawlAt(ds: seq<Download>, threshold: int, k: nat)
    requires k <= |ds| && (forall i :: 0 <= i < k ==> !Crawls(ds[i], threshold))
    requires (k < |ds| ==> Crawls(ds[k], threshold))
    ensures FirstCrawl(ds, threshold) == k
  {
    if k > 0 {
      FirstCrawlAt(ds[1..], threshold, k - 1);
    }
  }

  method MaxFloat(values: seq<real>) returns (result: real)
    ensures result == Highest(values)
  {
    result := 0.0;
    for i := 0 to |values|
      invariant result == Highest(values[..i])
    {
      assert values[..i + 1][..i] == values[..i];
      if values[i] > result {
        result := values[i];
      }
    }
    assert values[..|values|] == values;
  }

  method JudgeUnavailable(e: SpeedEvidence, threshold: int) returns (m: Measurement)
    requires e.unavailable && e.coreOk
    ensures m == Judge(e, threshold, 0.0, {})
  {
    for i := 0 to |e.downloads|
      invariant forall j :: 0 <= j < i ==> !Crawls(e.downloads[j], threshold)
    {
      var d := e.downloads[i];
      if d.ok && d.rate.Finite? && 0.0 < d.rate.value && d.rate.value < threshold as real {
        FirstCrawlAt(e.downloads, threshold, i);
        return Measurement("slow", d.rate.value, e.country);
      }
    }
    FirstCrawlAt(e.downloads, threshold, |e.downloads|);
    m := Measurement("speed_unavailable", 0.0, e.country);
  }

  method JudgeSamples(e: SpeedEvidence, threshold: int, stabilityRatio: real) returns (m: Measurement)
    requires e.coreOk && !e.unavailable
    ensures m == Judge(e, threshold, stabilityRatio, {})
  {
    hide FirstFault, FirstCrawl, Highest, JudgePair;
    var speeds: seq<real> := [];
    for i := 0 to |e.downloads|
      invariant forall j :: 0 <= j < i ==> Fault(e.downloads[j]) == ""
      invariant speeds == Rates(e.downloads)[..i]
    {
      var d := e.downloads[i];
      var fastest := MaxFloat(speeds);
      if !d.ok {
        FirstFaultAt(e.downloads, i);
        return Measurement("speed_failed", fastest, e.country);
      }
      var expected := d.expectedBytes;
      if expected <= 0 {
        expected := SPEED_BYTES;
      }
      if (d.httpCode != 200 && d.httpCode != 206) || d.bytes < expected {
        FirstFaultAt(e.downloads, i);
        return Measurement("speed_incomplete", fastest, e.country);
      }
      if d.rate.NotFinite? {
        FirstFaultAt(e.downloads, i);
        return Measurement("speed_invalid", fastest, e.country);
      }
      speeds := speeds + [d.rate.value];
    }
    FirstFaultAt(e.downloads, |e.downloads|);
    assert speeds == Rates(e.downloads);
    if |speeds| != 2 {
      var fastest := MaxFloat(speeds);
      return Measurement("speed_invalid", fastest, e.country);
    }
    m := JudgePair(speeds[0], speeds[1], threshold, stabilityRatio, e.country);
  }

  method EvaluateSpeed(e: SpeedEvidence, threshold: int, stabilityRatio: real, excluded: set<string>)
      returns (m: Measurement)
    ensures m == Judge(e, threshold, stabilityRatio, excluded)
  {
    hide FirstFault, FirstCrawl, Highest, JudgePair;
    if !e.coreOk {
      return Measurement("core_failed", 0.0, "");
    }
    if excluded != {} {
      if e.geoStatus != "" {
        return Measurement(e.geoStatus, 0.0, e.country);
      }
      if e.country == "" {
        return Measurement("country_unknown", 0.0, "");
      }
      if e.country in excluded {
        return Measurement("country_excluded", 0.0, e.country);
      }
    }
    if e.unavailable {
      m := JudgeUnavailable(e, threshold);
      return;
    }
    m := JudgeSamples(e, threshold, stabilityRatio);
  }

  /** A finished sample: all of the bytes asked for, ten mebibytes if nothing was said, at a finite rate. */
  predicate Complete(d: Download) {
    && d.ok && (d.httpCode == 200 || d.httpCode == 206) && d.rate.Finite?
    && d.bytes >= if d.expectedBytes > 0 then d.expectedBytes else 10_485_760
  }

  lemma {:induction false} FaultlessIffComplete(d: Download)
    ensures Fault(d) == "" <==> Complete(d)
  {
  }

  lemma {:induction false} PairQualifiesIff(a: real, b: real, threshold: int, stabilityRatio: real, country: string)
    ensures var m := JudgePair(a, b, threshold, stabilityRatio, country);
            && (m.status == "qualified" <==>
                  && a >= threshold as real && b >= threshold as real
                  && (Upper(a, b) == 0.0 || Lower(a, b) / Upper(a, b) >= stabilityRatio))
            && (m.status == "qualified" ==> m.rate <= a && m.rate <= b && (m.rate == a || m.rate == b))
  {
  }

  lemma {:induction false} FaultsAreNotPasses(d: Download)
    ensures Fault(d) != "qualified"
  {
  }

  /** A node qualifies exactly with two complete finite samples, neither below the threshold and close
      enough to each other; its rate is the lower one. */
  lemma {:induction false} QualifiesIff(e: SpeedEvidence, threshold: int, stabilityRatio: real)
    ensures var m, ds := Judge(e, threshold, stabilityRatio, {}), e.downloads;
            && (m.status == "qualified" <==>
                  && e.coreOk && !e.unavailable && |ds| == 2 && Complete(ds[0]) && Complete(ds[1])
                  && var a, b := ds[0].rate.value, ds[1].rate.value;
                  && a >= threshold as real && b >= threshold as real
                  && (Upper(a, b) == 0.0 || Lower(a, b) / Upper(a, b) >= stabilityRatio))
            && (m.status == "qualified" ==>
                  && m.rate <= ds[0].rate.value && m.rate <= ds[1].rate.value
                  && (m.rate == ds[0].rate.value || m.rate == ds[1].rate.value))
  {
    hide Fault, Complete, JudgePair, FirstCrawl, Highest, Rates;
    var ds := e.downloads;
    if e.coreOk && !e.unavailable {
      forall d
        ensures (Fault(d) == "" <==> Complete(d)) && Fault(d) != "qualified"
      {
        FaultlessIffComplete(d);
        FaultsAreNotPasses(d);
      }
      if |ds| == 2 {
        PairQualifiesIff(Value(ds[0].rate), Value(ds[1].rate), threshold, stabilityRatio, e.country);
        if Complete(ds[0]) && Complete(ds[1]) {
          FiniteValue(ds[0]);
          FiniteValue(ds[1]);
        }
      }
    }
  }

  lemma {:induction false} FiniteValue(d: Download)
    requires Complete(d)
    ensures d.rate.Finite? && Value(d.rate) == d.rate.value
  {
  }

  // ----- The other verdicts

  /** Before any sample is looked at: a core that failed, and with excluded countries a country that does not pass;
      otherwise countries make no difference. */
  lemma {:induction false} RejectedUnseen(e: SpeedEvidence, threshold: int, stabilityRatio: real, excluded: set<string>)
    ensures var m := Judge(e, threshold, stabilityRatio, excluded);
            && (!e.coreOk ==> m == Measurement("core_failed", 0.0, ""))
            && (e.coreOk && excluded != {} && e.geoStatus != "" ==> m == Measurement(e.geoStatus, 0.0, e.country))
            && (e.coreOk && excluded != {} && e.geoStatus == "" && e.country == "" ==>
                  m == Measurement("country_unknown", 0.0, ""))
            && (e.coreOk && e.geoStatus == "" && e.country != "" && e.country in excluded ==>
                  m == Measurement("country_excluded", 0.0, e.country))
            && (excluded == {} || (e.geoStatus == "" && e.country != "" && e.country !in excluded) ==>
                  m == Judge(e, threshold, stabilityRatio, {}))
  {
    hide FirstFault, FirstCrawl, Highest, JudgePair;
  }

  /** Where the samples could not be finished: a node is slow exactly if one of them ran, at a rate below the threshold,
      and then with the first such rate; otherwise its speed counts as unavailable. */
  lemma {:induction false} UnfinishedVerdict(e: SpeedEvidence, threshold: int, stabilityRatio: real) returns (k: nat)
    requires e.coreOk && e.unavailable
    ensures k <= |e.downloads|
    ensures forall i :: 0 <= i < k ==>
              var d := e.downloads[i]; !(d.ok && d.rate.Finite? && 0.0 < d.rate.value < threshold as real)
    ensures k < |e.downloads| ==>
              var d := e.downloads[k];
              && d.ok && d.rate.Finite? && 0.0 < d.rate.value < threshold as real
              && Judge(e, threshold, stabilityRatio, {}) == Measurement("slow", d.rate.value, e.country)
    ensures k == |e.downloads| ==>
              Judge(e, threshold, stabilityRatio, {}) == Measurement("speed_unavailable", 0.0, e.country)
  {
    k := FirstCrawl(e.downloads, threshold);
    hide FirstCrawl;
  }

  /** The highest of the rates of the first `k` samples, at least zero. */
  ghost predicate IsPeak(ds: seq<Download>, k: nat, rate: real)
    requires k <= |ds|
  {
    && rate >= 0.0 && (forall i :: 0 <= i < k && ds[i].rate.Finite? ==> ds[i].rate.value <= rate)
    && (rate == 0.0 || exists i :: 0 <= i < k && ds[i].rate == Finite(rate))
  }

  lemma {:induction false} HighestIsPeak(ds: seq<Download>, k: nat)
    requires k <= |ds| && forall i :: 0 <= i < k ==> ds[i].rate.Finite?
    ensures IsPeak(ds, k, Highest(Rates(ds)[..k]))
  {
    var values := Rates(ds)[..k];
    var rate := Highest(values);
    forall i | 0 <= i < k
      ensures ds[i].rate.value <= rate
    {
      assert values[i] in values;
    }
    if rate != 0.0 {
      var i :| 0 <= i < k && values[i] == rate;
      assert ds[i].rate == Finite(rate);
    }
  }

  /** The first incomplete sample decides, with the highest rate before it; complete samples that are not two are
      invalid. */
  lemma {:induction false} FaultyVerdict(e: SpeedEvidence, threshold: int, stabilityRatio: real, k: nat)
    requires e.coreOk && !e.unavailable && k <= |e.downloads| && forall i :: 0 <= i < k ==> Complete(e.downloads[i])
    requires if k < |e.downloads| then !Complete(e.downloads[k]) else k != 2
    ensures var m := Judge(e, threshold, stabilityRatio, {});
            && IsPeak(e.downloads, k, m.rate) && m.country == e.country
            && m.status ==
               if k == |e.downloads| then "speed_invalid"
               else if !e.downloads[k].ok then "speed_failed"
               else if e.downloads[k].rate.NotFinite? && Complete(e.downloads[k].(rate := Finite(0.0)))
                 then "speed_invalid"
               else "speed_incomplete"
  {
    hide JudgePair, Highest, FirstCrawl;
    var ds := e.downloads;
    forall i | 0 <= i < k
      ensures Fault(ds[i]) == "" && ds[i].rate.Finite?
    {
      FaultlessIffComplete(ds[i]);
    }
    if k < |ds| {
      FaultlessIffComplete(ds[k]);
    }
    FirstFaultAt(ds, k);
    HighestIsPeak(ds, k);
    assert Rates(ds)[..|ds|] == Rates(ds);
  }

  /** Two complete samples: slow if one is below the threshold, unstable if they are too far apart, both with the higher
      rate; otherwise the node qualifies with the lower one. */
  lemma {:induction false} PairVerdict(e: SpeedEvidence, threshold: int, stabilityRatio: real)
    requires e.coreOk && !e.unavailable && |e.downloads| == 2 && Complete(e.downloads[0]) && Complete(e.downloads[1])
    ensures var m := Judge(e, threshold, stabilityRatio, {});
            var a, b := e.downloads[0].rate.value, e.downloads[1].rate.value;
            var low, high := if a <= b then a else b, if a <= b then b else a;
            m ==
            if low < threshold as real then Measurement("slow", high, e.country)
            else if high != 0.0 && low / high < stabilityRatio then Measurement("unstable", high, e.country)
            else Measurement("qualified", low, e.country)
  {
    hide FirstCrawl, Highest;
    FaultlessIffComplete(e.downloads[0]);
    FaultlessIffComplete(e.downloads[1]);
    FirstFaultAt(e.downloads, 2);
  }
}
