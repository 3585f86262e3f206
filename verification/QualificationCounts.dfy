/** What the counts of a qualification report add up to. */
module QualificationCounts {
  import opened Seqs
  import opened Wrappers
  import opened SpeedTest
  import opened Qualification
  import opened QualificationReport
  import StableSort

  /** The notes about `what`, of one source or of all. */
  predicate Matches(n: Note, source: Option<string>, what: What) {
    n.what == what && (source.None? || n.source == source.value)
  }

  function CountOf(log: seq<Note>, source: Option<string>, what: What): nat {
    if log == [] then 0
    else CountOf(log[..|log| - 1], source, what) + if Matches(log[|log| - 1], source, what) then 1 else 0
  }

  lemma {:induction false} CountOfAppend(a: seq<Note>, b: seq<Note>, source: Option<string>, what: What)
    ensures CountOf(a + b, source, what) == CountOf(a, source, what) + CountOf(b, source, what)
  {
    hide Matches;
    if b == [] {
      assert a + b == a;
    } else {
      var n := |b| - 1;
      assert (a + b)[..|a| + n] == a + b[..n];
      CountOfAppend(a, b[..n], source, what);
    }
  }

  lemma {:induction false} CountOfOne(log: seq<Note>, n: Note, source: Option<string>, what: What)
    ensures CountOf(log + [n], source, what) == CountOf(log, source, what) + if Matches(n, source, what) then 1 else 0
  {
    assert (log + [n])[..|log|] == log;
  }

  lemma {:induction false} BumpCounts(r: SourceReport, bumped: What, what: What)
    ensures r.Bump(bumped).At(what) == r.At(what) + if bumped == what then 1 else 0
  {
  }

  /** A source's report counts the notes about the source. */
  lemma {:induction false} ReportsCountNotes(log: seq<Note>, source: string, what: What)
    ensures Of(WriteAll(map[], log), source).At(what) == CountOf(log, Some(source), what)
  {
    hide SourceReport.At, SourceReport.Bump;
    if log == [] {
      assert NEW_REPORT.At(what) == 0 by {
        NewReportIsZero(what);
      }
    } else {
      var front, n := log[..|log| - 1], log[|log| - 1];
      ReportsCountNotes(front, source, what);
      BumpCounts(Of(WriteAll(map[], front), source), n.what, what);
    }
  }

  lemma {:induction false} NewReportIsZero(what: What)
    ensures NEW_REPORT.At(what) == 0
  {
  }

  lemma {:induction false} ReportedSources(log: seq<Note>)
    ensures forall n <- log :: n.source in WriteAll(map[], log)
  {
    hide Of;
    if log != [] {
      ReportedSources(log[..|log| - 1]);
      assert log == log[..|log| - 1] + [log[|log| - 1]];
    }
  }

  // ----- Adding up over sources

  function SumOver(ids: seq<string>, reports: Reports, what: What): nat {
    if ids == [] then 0 else SumOver(ids[..|ids| - 1], reports, what) + Of(reports, ids[|ids| - 1]).At(what)
  }

  function SumOfCounts(ids: seq<string>, log: seq<Note>, what: What): nat {
    if ids == [] then 0
    else SumOfCounts(ids[..|ids| - 1], log, what) + CountOf(log, Some(ids[|ids| - 1]), what)
  }

  lemma {:induction false} SumCountsNotes(ids: seq<string>, log: seq<Note>, what: What)
    ensures SumOver(ids, WriteAll(map[], log), what) == SumOfCounts(ids, log, what)
  {
    if ids != [] {
      SumCountsNotes(ids[..|ids| - 1], log, what);
      ReportsCountNotes(log, ids[|ids| - 1], what);
    }
  }

  lemma {:induction false} OneNoteCountsOnce(ids: seq<string>, log: seq<Note>, n: Note, what: What)
    requires NoRepeats(ids)
    ensures SumOfCounts(ids, log + [n], what) == SumOfCounts(ids, log, what) + if n.source in ids && n.what == what
            then 1 else 0
  {
    hide CountOf;
    if ids != [] {
      var k := |ids| - 1;
      OneNoteCountsOnce(ids[..k], log, n, what);
      CountOfOne(log, n, Some(ids[k]), what);
      assert ids == ids[..k] + [ids[k]];
    }
  }

  lemma {:induction false} SumOfNothing(ids: seq<string>, what: What)
    ensures SumOfCounts(ids, [], what) == 0
  {
    if ids != [] {
      SumOfNothing(ids[..|ids| - 1], what);
    }
  }

  lemma {:induction false} SumIsTotal(ids: seq<string>, log: seq<Note>, what: What)
    requires NoRepeats(ids) && forall n <- log :: n.source in ids
    ensures SumOfCounts(ids, log, what) == CountOf(log, None, what)
  {
    if log == [] {
      SumOfNothing(ids, what);
    } else {
      var front, n := log[..|log| - 1], log[|log| - 1];
      assert n in log && forall m <- front :: m in log;
      SumIsTotal(ids, front, what);
      OneNoteCountsOnce(ids, front, n, what);
      assert front + [n] == log;
    }
  }

  // ----- What the log of a pass counts

  /** How many of the proxies belong to the source. */
  function Owned(owners: map<string, string>, proxies: seq<Proxy>, source: Option<string>): nat {
    if proxies == [] then 0
    else
      var n := |proxies| - 1;
      Owned(owners, proxies[..n], source)
      + if source.None? || SourceOf(owners, proxies[n]) == source.value then 1 else 0
  }

  function Occurrences(statuses: seq<string>, name: string): nat {
    if statuses == [] then 0
    else Occurrences(statuses[..|statuses| - 1], name) + if statuses[|statuses| - 1] == name then 1 else 0
  }

  lemma {:induction false} AllAreOwned(owners: map<string, string>, proxies: seq<Proxy>)
    ensures Owned(owners, proxies, None) == |proxies|
  {
    if proxies != [] {
      AllAreOwned(owners, proxies[..|proxies| - 1]);
    }
  }

  lemma {:induction false} TallyCounts(counts: map<string, nat>, statuses: seq<string>, name: string)
    ensures Number(Tally(counts, statuses), name) == Number(counts, name) + Occurrences(statuses, name)
  {
    if statuses != [] {
      TallyCounts(counts, statuses[..|statuses| - 1], name);
    }
  }

  lemma {:induction false} MarksCount(owners: map<string, string>, proxies: seq<Proxy>, marked: What,
        source: Option<string>, what: What)
    ensures CountOf(Marks(owners, proxies, marked), source, what) == if marked == what
            then Owned(owners, proxies, source) else 0
  {
    hide SourceOf;
    if proxies != [] {
      var n := |proxies| - 1;
      MarksCount(owners, proxies[..n], marked, source, what);
      CountOfOne(Marks(owners, proxies[..n], marked), Note(SourceOf(owners, proxies[n]), marked), source, what);
    }
  }

  lemma {:induction false} OwnedPush(owners: map<string, string>, proxies: seq<Proxy>, p: Proxy, source: Option<string>)
    ensures Owned(owners, proxies + [p], source)
         == Owned(owners, proxies, source) + if source.None? || SourceOf(owners, p) == source.value then 1 else 0
  {
    assert (proxies + [p])[..|proxies|] == proxies;
  }

  /** Notes of the country check: one status for each proxy, and one more note for each that passed. */
  lemma {:induction false} GeoMarksCount(owners: map<string, string>, items: seq<Ranked>, statuses: seq<string>,
          source: Option<string>, what: What)
    requires |items| == |statuses|
    ensures var count := CountOf(GeoMarks(owners, items, statuses), source, what);
            && (what.GeoOk? ==> count == Owned(owners, ProxiesOf(GeoPassed(items, statuses)), source))
            && (what.Status? && source.None? ==> count == Occurrences(statuses, what.name))
            && (!what.GeoOk? && !what.Status? ==> count == 0)
  {
    hide SourceOf, CountOf, ProxiesOf;
    if items == [] {
      assert CountOf([], source, what) == 0 by {
        NothingCounts(owners, source, what);
      }
    } else {
      var n := |items| - 1;
      var front, id := GeoMarks(owners, items[..n], statuses[..n]), SourceOf(owners, items[n].proxy);
      GeoMarksCount(owners, items[..n], statuses[..n], source, what);
      CountOfOne(front, Note(id, Status(statuses[n])), source, what);
      CountOfOne(front + [Note(id, Status(statuses[n]))], Note(id, GeoOk), source, what);
      assert front + [Note(id, Status(statuses[n]))] + [] == front + [Note(id, Status(statuses[n]))];
      var passed := GeoPassed(items[..n], statuses[..n]);
      ProxiesOfPush(passed, items[n]);
      OwnedPush(owners, ProxiesOf(passed), items[n].proxy, source);
      assert passed + [] == passed;
    }
  }

  lemma {:induction false} NothingCounts(owners: map<string, string>, source: Option<string>, what: What)
    ensures CountOf([], source, what) == 0 && Owned(owners, [], source) == 0
  {
  }

  lemma {:induction false} SpeedMarksCount(owners: map<string, string>, proxies: seq<Proxy>, ms: seq<Measurement>,
          source: Option<string>, what: What)
    requires |proxies| == |ms|
    ensures var count := CountOf(SpeedMarks(owners, proxies, ms), source, what);
            && (what.SpeedTested? ==> count == Owned(owners, proxies, source))
            && (what.Status? && source.None? ==> count == Occurrences(StatusesOf(ms), what.name))
            && (!what.SpeedTested? && !what.Status? ==> count == 0)
  {
    hide SourceOf, CountOf;
    if proxies == [] {
      NothingCounts(owners, source, what);
    } else {
      var n := |proxies| - 1;
      var front, id := SpeedMarks(owners, proxies[..n], ms[..n]), SourceOf(owners, proxies[n]);
      var tested, status := Note(id, SpeedTested), Note(id, Status(ms[n].status));
      SpeedMarksCount(owners, proxies[..n], ms[..n], source, what);
      CountOfOne(front, tested, source, what);
      CountOfOne(front + [tested], status, source, what);
      assert front + [tested] + [status] == front + [tested, status];
      StatusesOfLast(ms);
    }
  }

  lemma {:induction false} StatusesOfLast(ms: seq<Measurement>)
    requires ms != []
    ensures forall name :: Occurrences(StatusesOf(ms), name)
                        == Occurrences(StatusesOf(ms[..|ms| - 1]), name) + if ms[|ms| - 1].status == name then 1 else 0
  {
    assert (StatusesOf(ms[..|ms| - 1]) + [ms[|ms| - 1].status])[..|ms| - 1] == StatusesOf(ms[..|ms| - 1]);
  }

  /** The proxies a stage ended with. */
  function StageOf(proxies: seq<Proxy>, p: Pass, what: What): seq<Proxy>
    requires !what.Status?
  {
    match what
    case Input => proxies
    case TcpAlive => ProxiesOf(p.tcpAlive)
    case UrlAlive => ProxiesOf(p.urlAlive)
    case GeoOk => if p.geoEnabled then ProxiesOf(p.geoAlive) else []
    case SpeedTested => p.tested
    case Qualified => ProxiesOf(p.qualified)
    case Retained => ProxiesOf(p.retained)
  }

  lemma {:induction false} LogCountsByPart(owners: map<string, string>, proxies: seq<Proxy>, p: Pass,
        source: Option<string>, what: What)
    requires Fits(p)
    ensures CountOf(Log(owners, proxies, p), source, what)
         == CountOf(Marks(owners, proxies, Input), source, what)
            + CountOf(Marks(owners, ProxiesOf(p.tcpAlive), TcpAlive), source, what)
            + CountOf(Marks(owners, ProxiesOf(p.urlAlive), UrlAlive), source, what)
            + (if p.geoEnabled then CountOf(GeoMarks(owners, p.urlAlive, p.statuses), source, what) else 0)
            + CountOf(SpeedMarks(owners, p.tested, p.measurements), source, what)
            + CountOf(Marks(owners, ProxiesOf(p.qualified), Qualified), source, what)
            + CountOf(Marks(owners, ProxiesOf(p.retained), Retained), source, what)
  {
    hide Marks, GeoMarks, SpeedMarks, ProxiesOf, GeoPassed, CountOf;
    var input, tcp, url := Marks(owners, proxies, Input), Marks(owners, ProxiesOf(p.tcpAlive), TcpAlive),
      Marks(owners, ProxiesOf(p.urlAlive), UrlAlive);
    CountOfAppend(input, tcp, source, what);
    CountOfAppend(input + tcp, url, source, what);
    var geo := if p.geoEnabled then GeoMarks(owners, p.urlAlive, p.statuses) else [];
    NothingCounts(owners, source, what);
    CountOfAppend(geo, SpeedMarks(owners, p.tested, p.measurements), source, what);
    CountOfAppend(EarlyLog(owners, proxies, p), TestLog(owners, p), source, what);
    CountOfAppend(Marks(owners, ProxiesOf(p.qualified), Qualified), Marks(owners, ProxiesOf(p.retained), Retained),
        source, what);
    CountOfAppend(EarlyLog(owners, proxies, p) + TestLog(owners, p), LateLog(owners, p), source, what);
  }

  lemma {:induction false} StageCounts(owners: map<string, string>, proxies: seq<Proxy>, p: Pass,
        source: Option<string>, what: What)
    requires Fits(p) && !what.Status?
    ensures CountOf(Log(owners, proxies, p), source, what) == Owned(owners, StageOf(proxies, p, what), source)
  {
    hide Marks, GeoMarks, SpeedMarks, ProxiesOf, GeoPassed, CountOf, Log, Owned;
    LogCountsByPart(owners, proxies, p, source, what);
    MarksCount(owners, proxies, Input, source, what);
    MarksCount(owners, ProxiesOf(p.tcpAlive), TcpAlive, source, what);
    MarksCount(owners, ProxiesOf(p.urlAlive), UrlAlive, source, what);
    MarksCount(owners, ProxiesOf(p.qualified), Qualified, source, what);
    MarksCount(owners, ProxiesOf(p.retained), Retained, source, what);
    if p.geoEnabled {
      GeoMarksCount(owners, p.urlAlive, p.statuses, source, what);
    }
    SpeedMarksCount(owners, p.tested, p.measurements, source, what);
    NothingCounts(owners, source, what);
  }

  lemma {:induction false} StatusCounts(pool: string, owners: map<string, string>, proxies: seq<Proxy>, p: Pass,
          name: string)
    requires Fits(p)
    ensures CountOf(Log(owners, proxies, p), None, Status(name))
         == OutcomeOf(pool, owners, proxies, p).report.Total(Status(name))
  {
    hide Marks, GeoMarks, SpeedMarks, ProxiesOf, GeoPassed, CountOf, Log, WriteAll, StatusesOf;
    var what := Status(name);
    LogCountsByPart(owners, proxies, p, None, what);
    MarksCount(owners, proxies, Input, None, what);
    MarksCount(owners, ProxiesOf(p.tcpAlive), TcpAlive, None, what);
    MarksCount(owners, ProxiesOf(p.urlAlive), UrlAlive, None, what);
    MarksCount(owners, ProxiesOf(p.qualified), Qualified, None, what);
    MarksCount(owners, ProxiesOf(p.retained), Retained, None, what);
    if p.geoEnabled {
      GeoMarksCount(owners, p.urlAlive, p.statuses, None, what);
    }
    SpeedMarksCount(owners, p.tested, p.measurements, None, what);
    TallyCounts(map[], p.statuses, name);
    TallyCounts(Tally(map[], p.statuses), StatusesOf(p.measurements), name);
  }

  /** For any backend answers, each total and each outcome count of the report is the sum over its source reports. */
  lemma {:induction false} SourcesAddUp(pool: string, proxies: seq<Proxy>, s: Settings, owners: map<string, string>,
          b: Backend, ids: seq<string>, what: What)
    requires Pipeline(pool, proxies, s, b).Success?
    requires NoRepeats(ids)
    requires forall id ::
               id in OutcomeOf(pool, owners, proxies, Pipeline(pool, proxies, s, b).value).report.sources <==> id in ids
    ensures var report := OutcomeOf(pool, owners, proxies, Pipeline(pool, proxies, s, b).value).report;
            SumOver(ids, report.sources, what) == report.Total(what)
  {
    hide Log, WriteAll, ProxiesOf, Tally, StatusesOf, Pipeline, SumOver, GeoPassed, Owned;
    var p := Pipeline(pool, proxies, s, b).value;
    var log := Log(owners, proxies, p);
    ReportedSources(log);
    SumCountsNotes(ids, log, what);
    SumIsTotal(ids, log, what);
    if what.Status? {
      StatusCounts(pool, owners, proxies, p, what.name);
    } else {
      StageCounts(owners, proxies, p, None, what);
      AllAreOwned(owners, StageOf(proxies, p, what));
    }
  }

  // ----- One source

  lemma {:induction false} OwnedRemove(owners: map<string, string>, proxies: seq<Proxy>, i: nat, source: Option<string>)
    requires i < |proxies|
    ensures Owned(owners, proxies, source)
         == Owned(owners, proxies[..i] + proxies[i + 1..], source)
            + if source.None? || SourceOf(owners, proxies[i]) == source.value then 1 else 0
  {
    hide SourceOf;
    var n := |proxies| - 1;
    if i == n {
      assert proxies[..i] + proxies[i + 1..] == proxies[..n];
    } else {
      OwnedRemove(owners, proxies[..n], i, source);
      OwnedPush(owners, proxies[..i] + proxies[i + 1..n], proxies[n], source);
      assert proxies[..n][..i] + proxies[..n][i + 1..] == proxies[..i] + proxies[i + 1..n];
      assert proxies[..i] + proxies[i + 1..] == (proxies[..i] + proxies[i + 1..n]) + [proxies[n]];
    }
  }

  lemma {:induction false} RemoveOne(b: seq<Proxy>, i: nat)
    requires i < |b|
    ensures multiset(b[..i] + b[i + 1..]) == multiset(b) - multiset{b[i]}
  {
    assert b == b[..i] + [b[i]] + b[i + 1..];
  }

  lemma {:induction false} FewerAreOwned(owners: map<string, string>, a: seq<Proxy>, b: seq<Proxy>,
          source: Option<string>)
    requires multiset(a) <= multiset(b)
    ensures Owned(owners, a, source) <= Owned(owners, b, source)
  {
    hide SourceOf;
    if a != [] {
      var n := |a| - 1;
      assert a[n] in multiset(a);
      var i: nat :| i < |b| && b[i] == a[n];
      RemoveOne(b, i);
      RemoveOne(a, n);
      assert a[..n] + a[n + 1..] == a[..n];
      FewerAreOwned(owners, a[..n], b[..i] + b[i + 1..], source);
      OwnedRemove(owners, b, i, source);
    }
  }

  /** A source report counts exactly the source's proxies at every stage, and these narrow like the totals. */
  lemma {:induction false} SourceReportsNarrow(pool: string, proxies: seq<Proxy>, s: Settings,
          owners: map<string, string>, b: Backend, id: string)
    requires Pipeline(pool, proxies, s, b).Success?
    ensures var p := Pipeline(pool, proxies, s, b).value;
            var r := Of(OutcomeOf(pool, owners, proxies, p).report.sources, id);
            && r.input == Owned(owners, proxies, Some(id))
            && r.tcpAlive == Owned(owners, ProxiesOf(p.tcpAlive), Some(id))
            && r.urlAlive == Owned(owners, ProxiesOf(p.urlAlive), Some(id))
            && r.qualified == Owned(owners, ProxiesOf(p.qualified), Some(id))
            && r.retained == Owned(owners, ProxiesOf(p.retained), Some(id))
            && r.retained <= r.qualified <= r.urlAlive <= r.tcpAlive <= r.input
            && (p.geoEnabled ==> r.geoPassed == Owned(owners, ProxiesOf(p.geoAlive), Some(id)))
            && (p.geoEnabled ==> r.qualified <= r.geoPassed <= r.urlAlive)
  {
    hide Log, WriteAll, ProxiesOf, Tally, StatusesOf, Pipeline, GeoPassed, Owned, Of, CountOf;
    var p := Pipeline(pool, proxies, s, b).value;
    ReportIsExact(pool, owners, proxies, p, id, Input);
    ReportIsExact(pool, owners, proxies, p, id, TcpAlive);
    ReportIsExact(pool, owners, proxies, p, id, UrlAlive);
    ReportIsExact(pool, owners, proxies, p, id, GeoOk);
    ReportIsExact(pool, owners, proxies, p, id, Qualified);
    ReportIsExact(pool, owners, proxies, p, id, Retained);
    StagesShrink(pool, proxies, s, b);
    FewerAreOwned(owners, ProxiesOf(p.tcpAlive), proxies, Some(id));
    FewerAreOwned(owners, ProxiesOf(p.urlAlive), ProxiesOf(p.tcpAlive), Some(id));
    FewerAreOwned(owners, ProxiesOf(p.geoAlive), ProxiesOf(p.urlAlive), Some(id));
    FewerAreOwned(owners, ProxiesOf(p.qualified), ProxiesOf(p.geoAlive), Some(id));
    FewerAreOwned(owners, ProxiesOf(p.retained), ProxiesOf(p.qualified), Some(id));
  }

  lemma {:induction false} ReportIsExact(pool: string, owners: map<string, string>, proxies: seq<Proxy>, p: Pass,
          id: string, what: What)
    requires Fits(p) && !what.Status?
    ensures Of(OutcomeOf(pool, owners, proxies, p).report.sources, id).At(what)
         == Owned(owners, StageOf(proxies, p, what), Some(id))
  {
    hide Log, WriteAll, ProxiesOf, Tally, StatusesOf, GeoPassed, Owned, Of, CountOf;
    StageCounts(owners, proxies, p, Some(id), what);
    ReportsCountNotes(Log(owners, proxies, p), id, what);
  }

  /** The report counts the stages, runs two speed tests or none, and names where the threshold came from; the outcomes
      count the verdicts, those by country and those by speed. */
  lemma {:induction false} ReportTells(pool: string, proxies: seq<Proxy>, s: Settings, owners: map<string, string>,
          b: Backend, name: string)
    requires Pipeline(pool, proxies, s, b).Success?
    ensures var p := Pipeline(pool, proxies, s, b).value;
            var outcome := OutcomeOf(pool, owners, proxies, p);
            var report := outcome.report;
            && outcome.proxies == ProxiesOf(p.retained) && report.pool == pool
            && report.input == |proxies| && report.tcpAlive == |p.tcpAlive| && report.urlAlive == |p.urlAlive|
            && report.qualified == |p.qualified| && report.retained == |p.retained|
            && report.geoPassed == (if p.geoEnabled then |p.geoAlive| else 0)
            && report.speedTested == |p.tested| && (report.geoEnabled <==> p.geoEnabled)
            && (report.speedRuns == 0 <==> s.skipSpeed || (b.baseline.Some? && !LinkMeasured(b)))
            && (report.speedRuns != 0 ==> report.speedRuns == 2)
            && report.thresholdSource == (if s.skipSpeed then "skipped"
                                          else if b.baseline.None? then "configured_fallback"
                                          else if LinkMeasured(b) then "wan_baseline" else "speed_unavailable")
            && report.Total(Status(name)) ==
               Occurrences(p.statuses, name) + Occurrences(StatusesOf(p.measurements), name)
  {
    hide GeoPassed, AliveOf, Fast, Measurements, GeoStatuses, StableSort.Sort, ProxiesOf, WriteAll, Log, Tally,
      StatusesOf, Occurrences;
    var p := Pipeline(pool, proxies, s, b).value;
    TallyCounts(map[], p.statuses, name);
    TallyCounts(Tally(map[], p.statuses), StatusesOf(p.measurements), name);
  }
}
