/** Counting what became of every proxy, in total and per source. */
module QualificationReport {
  import opened Wrappers
  import opened SpeedTest
  import opened Qualification
  import StableSort

  datatype What = Input | TcpAlive | UrlAlive | GeoOk | SpeedTested | Qualified | Retained | Status(name: string)

  datatype Note = Note(source: string, what: What)

  function Number(m: map<string, nat>, key: string): nat {
    if key in m then m[key] else 0
  }

  datatype SourceReport = SourceReport(input: nat, tcpAlive: nat, urlAlive: nat, geoPassed: nat, speedTested: nat,
                                       qualified: nat, retained: nat, outcomes: map<string, nat>) {
    function Bump(what: What): SourceReport {
      match what
      case Input => this.(input := input + 1)
      case TcpAlive => this.(tcpAlive := tcpAlive + 1)
      case UrlAlive => this.(urlAlive := urlAlive + 1)
      case GeoOk => this.(geoPassed := geoPassed + 1)
      case SpeedTested => this.(speedTested := speedTested + 1)
      case Qualified => this.(qualified := qualified + 1)
      case Retained => this.(retained := retained + 1)
      case Status(name) => this.(outcomes := outcomes[name := Number(outcomes, name) + 1])
    }

    function At(what: What): nat {
      match what
      case Input => input
      case TcpAlive => tcpAlive
      case UrlAlive => urlAlive
      case GeoOk => geoPassed
      case SpeedTested => speedTested
      case Qualified => qualified
      case Retained => retained
      case Status(name) => Number(outcomes, name)
    }
  }

  const NEW_REPORT := SourceReport(0, 0, 0, 0, 0, 0, 0, map[])

  type Reports = map<string, SourceReport>

  function Of(reports: Reports, source: string): SourceReport {
    if source in reports then reports[source] else NEW_REPORT
  }

  function Write(reports: Reports, n: Note): Reports {
    reports[n.source := Of(reports, n.source).Bump(n.what)]
  }

  function WriteAll(reports: Reports, log: seq<Note>): Reports {
    if log == [] then reports else Write(WriteAll(reports, log[..|log| - 1]), log[|log| - 1])
  }

  /** Every proxy has a source: its owner, if one with a name is on file. */
  function SourceOf(owners: map<string, string>, p: Proxy): (source: string)
    ensures source != ""
    ensures p.name in owners && owners[p.name] != "" ==> source == owners[p.name]
    ensures p.name !in owners || owners[p.name] == "" ==> source == "unknown"
  {
    if p.name in owners && owners[p.name] != "" then owners[p.name] else "unknown"
  }

  function Tally(counts: map<string, nat>, statuses: seq<string>): map<string, nat> {
    if statuses == [] then counts
    else
      var front, last := Tally(counts, statuses[..|statuses| - 1]), statuses[|statuses| - 1];
      front[last := Number(front, last) + 1]
  }

  // ----- The log of one pass

  function Marks(owners: map<string, string>, proxies: seq<Proxy>, what: What): seq<Note> {
    if proxies == [] then []
    else Marks(owners, proxies[..|proxies| - 1], what) + [Note(SourceOf(owners, proxies[|proxies| - 1]), what)]
  }

  function GeoMarks(owners: map<string, string>, items: seq<Ranked>, statuses: seq<string>): seq<Note>
    requires |items| == |statuses|
  {
    if items == [] then []
    else
      var n := |items| - 1;
      var source := SourceOf(owners, items[n].proxy);
      GeoMarks(owners, items[..n], statuses[..n])
      + [Note(source, Status(statuses[n]))] + (if statuses[n] == "geo_qualified" then [Note(source, GeoOk)] else [])
  }

  function SpeedMarks(owners: map<string, string>, proxies: seq<Proxy>, ms: seq<Measurement>): seq<Note>
    requires |proxies| == |ms|
  {
    if proxies == [] then []
    else
      var n := |proxies| - 1;
      var source := SourceOf(owners, proxies[n]);
      SpeedMarks(owners, proxies[..n], ms[..n]) + [Note(source, SpeedTested), Note(source, Status(ms[n].status))]
  }

  function StatusesOf(ms: seq<Measurement>): (r: seq<string>)
    ensures |r| == |ms|
  {
    if ms == [] then [] else StatusesOf(ms[..|ms| - 1]) + [ms[|ms| - 1].status]
  }

  /** Everything counted up to the country check, by the speed test, and at the end. */
  function EarlyLog(owners: map<string, string>, proxies: seq<Proxy>, p: Pass): seq<Note> {
    Marks(owners, proxies, Input) + Marks(owners, ProxiesOf(p.tcpAlive), TcpAlive) + Marks(owners,
        ProxiesOf(p.urlAlive), UrlAlive)
  }

  function TestLog(owners: map<string, string>, p: Pass): seq<Note>
    requires Fits(p)
  {
    (if p.geoEnabled then GeoMarks(owners, p.urlAlive, p.statuses) else []) + SpeedMarks(owners, p.tested,
        p.measurements)
  }

  function LateLog(owners: map<string, string>, p: Pass): seq<Note> {
    Marks(owners, ProxiesOf(p.qualified), Qualified) + Marks(owners, ProxiesOf(p.retained), Retained)
  }

  function Log(owners: map<string, string>, proxies: seq<Proxy>, p: Pass): seq<Note>
    requires Fits(p)
  {
    EarlyLog(owners, proxies, p) + TestLog(owners, p) + LateLog(owners, p)
  }

  datatype Report = Report(pool: string, input: nat, tcpAlive: nat, urlAlive: nat, geoEnabled: bool, geoPassed: nat,
                           speedRuns: nat, speedTested: nat, qualified: nat, retained: nat, thresholdSource: string,
                           outcomes: map<string, nat>, sources: Reports)
  {
    function Total(what: What): nat {
      match what
      case Input => input
      case TcpAlive => tcpAlive
      case UrlAlive => urlAlive
      case GeoOk => geoPassed
      case SpeedTested => speedTested
      case Qualified => qualified
      case Retained => retained
      case Status(name) => Number(outcomes, name)
    }
  }

  datatype Outcome = Outcome(proxies: seq<Proxy>, report: Report)

  function OutcomeOf(pool: string, owners: map<string, string>, proxies: seq<Proxy>, p: Pass): Outcome
    requires Fits(p)
  {
    Outcome(ProxiesOf(p.retained),
            Report(pool, |proxies|, |p.tcpAlive|, |p.urlAlive|, p.geoEnabled, if p.geoEnabled then |p.geoAlive| else 0,
                   if p.plan.skip then 0 else 2, |p.measurements|, |p.qualified|, |p.retained|, p.plan.source,
                   Tally(Tally(map[], p.statuses), StatusesOf(p.measurements)),
                   WriteAll(map[], Log(owners, proxies, p))))
  }

  // ----- The loops

  lemma {:induction false} WriteMore(reports: Reports, a: seq<Note>, b: seq<Note>)
    ensures WriteAll(reports, a + b) == WriteAll(WriteAll(reports, a), b)
  {
    if b == [] {
      assert a + b == a;
    } else {
      var n := |b| - 1;
      assert (a + b)[..|a| + n] == a + b[..n];
      WriteMore(reports, a, b[..n]);
    }
  }

  lemma {:induction false} WriteOne(reports: Reports, log: seq<Note>, n: Note)
    ensures WriteAll(reports, log + [n]) == Write(WriteAll(reports, log), n)
  {
    assert (log + [n])[..|log|] == log;
  }

  method Count(reports: Reports, owners: map<string, string>, proxies: seq<Proxy>, what: What) returns (r: Reports)
    ensures r == WriteAll(reports, Marks(owners, proxies, what))
  {
    hide Write, SourceOf;
    r := reports;
    for i := 0 to |proxies|
      invariant r == WriteAll(reports, Marks(owners, proxies[..i], what))
    {
      assert proxies[..i + 1][..i] == proxies[..i];
      WriteOne(reports, Marks(owners, proxies[..i], what), Note(SourceOf(owners, proxies[i]), what));
      r := Write(r, Note(SourceOf(owners, proxies[i]), what));
    }
    assert proxies[..|proxies|] == proxies;
  }

  method KeepAlive(proxies: seq<Proxy>, answers: seq<Latency>) returns (alive: seq<Ranked>)
    requires |proxies| == |answers|
    ensures alive == Reached(proxies, answers)
  {
    alive := [];
    for i := 0 to |proxies|
      invariant alive == AliveOf(proxies[..i], answers[..i])
    {
      assert proxies[..i + 1][..i] == proxies[..i] && answers[..i + 1][..i] == answers[..i];
      if answers[i].alive {
        alive := alive + [Ranked(answers[i].seconds, proxies[i])];
      }
    }
    assert proxies[..|proxies|] == proxies && answers[..|proxies|] == answers;
    alive := StableSort.Sort(Sooner, alive);
  }

  method Proxies(items: seq<Ranked>) returns (r: seq<Proxy>)
    ensures r == ProxiesOf(items)
  {
    r := [];
    for i := 0 to |items|
      invariant r == ProxiesOf(items[..i])
    {
      assert items[..i + 1] == items[..i] + [items[i]];
      ProxiesOfPush(items[..i], items[i]);
      r := r + [items[i].proxy];
    }
    assert items[..|items|] == items;
  }

  /** Where the loops over evidence stand. */
  datatype Books = Books(reports: Reports, outcomes: map<string, nat>)

  /** Writes down one country verdict. */
  function Countried(books: Books, source: string, status: string): Books {
    var noted := Write(books.reports, Note(source, Status(status)));
    Books(if status == "geo_qualified" then Write(noted, Note(source, GeoOk)) else noted,
          books.outcomes[status := Number(books.outcomes, status) + 1])
  }

  lemma {:induction false} TallyStep(counts: map<string, nat>, statuses: seq<string>, status: string)
    ensures Tally(counts, statuses + [status])
         == Tally(counts, statuses)[status := Number(Tally(counts, statuses), status) + 1]
  {
    assert (statuses + [status])[..|statuses|] == statuses;
  }

  lemma {:induction false} GeoMarksStep(owners: map<string, string>, items: seq<Ranked>, x: Ranked,
        statuses: seq<string>, status: string)
    requires |items| == |statuses|
    ensures GeoPassed(items + [x], statuses + [status])
         == GeoPassed(items, statuses) + if status == "geo_qualified" then [x] else []
    ensures GeoMarks(owners, items + [x], statuses + [status])
         == GeoMarks(owners, items, statuses) + [Note(SourceOf(owners, x.proxy), Status(status))]
            + if status == "geo_qualified" then [Note(SourceOf(owners, x.proxy), GeoOk)] else []
  {
    assert (items + [x])[..|items|] == items && (statuses + [status])[..|items|] == statuses;
  }

  lemma {:induction false} GeoStep(reports: Reports, owners: map<string, string>, items: seq<Ranked>, x: Ranked,
          statuses: seq<string>, status: string)
    requires |items| == |statuses|
    ensures Books(WriteAll(reports, GeoMarks(owners, items + [x], statuses + [status])),
            Tally(map[], statuses + [status]))
         == Countried(Books(WriteAll(reports, GeoMarks(owners, items, statuses)), Tally(map[], statuses)),
                      SourceOf(owners, x.proxy), status)
  {
    hide Write, SourceOf, WriteAll, Tally, GeoMarks, GeoPassed;
    var log, source := GeoMarks(owners, items, statuses), SourceOf(owners, x.proxy);
    GeoMarksStep(owners, items, x, statuses, status);
    TallyStep(map[], statuses, status);
    WriteOne(reports, log, Note(source, Status(status)));
    WriteOne(reports, log + [Note(source, Status(status))], Note(source, GeoOk));
    assert log + [Note(source, Status(status))] + [] == log + [Note(source, Status(status))];
  }

  lemma {:induction false} StatusStep(excluded: set<string>, answers: seq<GeoEvidence>, i: nat)
    requires i < |answers|
    ensures GeoStatuses(excluded, answers[..i + 1]) == GeoStatuses(excluded,
            answers[..i]) + [GeoStatus(excluded, answers[i])]
  {
    assert answers[..i + 1][..i] == answers[..i];
  }

  lemma {:induction false} GeoStart(reports: Reports, owners: map<string, string>, excluded: set<string>,
          items: seq<Ranked>, statuses: seq<string>, answers: seq<GeoEvidence>)
    requires |items| == |statuses| == |answers| == 0
    ensures GeoStatuses(excluded, answers) == [] && GeoPassed(items, statuses) == []
    ensures WriteAll(reports, GeoMarks(owners, items, statuses)) == reports && Tally(map[], statuses) == map[]
  {
  }

  lemma {:induction false} SpeedStart(books: Books, owners: map<string, string>, proxies: seq<Proxy>,
          ms: seq<Measurement>, answers: seq<SpeedEvidence>, threshold: int, stabilityRatio: real)
    requires |proxies| == |ms| == |answers| == 0
    ensures Measurements(answers, threshold, stabilityRatio) == [] && Fast(proxies, ms) == []
    ensures WriteAll(books.reports, SpeedMarks(owners, proxies, ms)) == books.reports
    ensures Tally(books.outcomes, StatusesOf(ms)) == books.outcomes
  {
  }

  method CheckCountry(excluded: set<string>, e: GeoEvidence) returns (status: string)
    ensures status == GeoStatus(excluded, e)
  {
    status := e.status;
    if status != "" {
    } else if !e.ok || e.country == "" {
      status := "country_unknown";
    } else if e.country in excluded {
      status := "country_excluded";
    } else {
      status := "geo_qualified";
    }
  }

  method CheckCountries(reports: Reports, owners: map<string, string>, excluded: set<string>, items: seq<Ranked>,
          answers: seq<GeoEvidence>)
    returns (books: Books, passed: seq<Ranked>)
    requires |items| == |answers|
    ensures passed == GeoPassed(items, GeoStatuses(excluded, answers))
    ensures books == Books(WriteAll(reports, GeoMarks(owners, items, GeoStatuses(excluded, answers))),
                           Tally(map[], GeoStatuses(excluded, answers)))
  {
    hide Write, SourceOf, GeoStatus, WriteAll, Tally, GeoMarks, GeoPassed, GeoStatuses;
    books, passed := Books(reports, map[]), [];
    ghost var statuses: seq<string> := [];
    GeoStart(reports, owners, excluded, items[..0], statuses, answers[..0]);
    for i := 0 to |items|
      invariant statuses == GeoStatuses(excluded, answers[..i])
      invariant passed == GeoPassed(items[..i], statuses)
      invariant books == Books(WriteAll(reports, GeoMarks(owners, items[..i], statuses)), Tally(map[], statuses))
    {
      var status := CheckCountry(excluded, answers[i]);
      StatusStep(excluded, answers, i);
      GeoMarksStep(owners, items[..i], items[i], statuses, status);
      GeoStep(reports, owners, items[..i], items[i], statuses, status);
      assert items[..i + 1] == items[..i] + [items[i]];
      statuses := statuses + [status];
      var source := SourceOf(owners, items[i].proxy);
      var noted := Write(books.reports, Note(source, Status(status)));
      var outcomes := books.outcomes[status := Number(books.outcomes, status) + 1];
      if status == "geo_qualified" {
        noted := Write(noted, Note(source, GeoOk));
        passed := passed + [items[i]];
      }
      books := Books(noted, outcomes);
    }
    assert items[..|items|] == items && answers[..|items|] == answers;
  }

  /** Writes down one speed verdict. */
  function Tested(books: Books, source: string, status: string): Books {
    Books(Write(Write(books.reports, Note(source, SpeedTested)), Note(source, Status(status))),
          books.outcomes[status := Number(books.outcomes, status) + 1])
  }

  lemma {:induction false} SpeedMarksStep(owners: map<string, string>, proxies: seq<Proxy>, x: Proxy,
        ms: seq<Measurement>, m: Measurement)
    requires |proxies| == |ms|
    ensures Fast(proxies + [x], ms + [m]) == Fast(proxies, ms) + if Passes(m) then [Ranked(m.rate, x)] else []
    ensures SpeedMarks(owners, proxies + [x], ms + [m])
         == SpeedMarks(owners, proxies, ms) + [Note(SourceOf(owners, x), SpeedTested),
             Note(SourceOf(owners, x), Status(m.status))]
    ensures StatusesOf(ms + [m]) == StatusesOf(ms) + [m.status]
  {
    assert (proxies + [x])[..|proxies|] == proxies && (ms + [m])[..|proxies|] == ms;
  }

  lemma {:induction false} SpeedStep(books: Books, owners: map<string, string>, proxies: seq<Proxy>, x: Proxy,
          ms: seq<Measurement>, m: Measurement)
    requires |proxies| == |ms|
    ensures Books(WriteAll(books.reports, SpeedMarks(owners, proxies + [x], ms + [m])),
            Tally(books.outcomes, StatusesOf(ms + [m])))
         == Tested(Books(WriteAll(books.reports, SpeedMarks(owners, proxies, ms)),
             Tally(books.outcomes, StatusesOf(ms))),
                   SourceOf(owners, x), m.status)
  {
    hide Write, SourceOf, WriteAll, Tally, SpeedMarks, Fast, StatusesOf;
    var log, source := SpeedMarks(owners, proxies, ms), SourceOf(owners, x);
    SpeedMarksStep(owners, proxies, x, ms, m);
    TallyStep(books.outcomes, StatusesOf(ms), m.status);
    WriteOne(books.reports, log, Note(source, SpeedTested));
    WriteOne(books.reports, log + [Note(source, SpeedTested)], Note(source, Status(m.status)));
    assert log + [Note(source, SpeedTested)] + [Note(source, Status(m.status))]
        == log + [Note(source, SpeedTested), Note(source, Status(m.status))];
  }

  lemma {:induction false} MeasureStep(answers: seq<SpeedEvidence>, threshold: int, stabilityRatio: real, i: nat)
    requires i < |answers|
    ensures Measurements(answers[..i + 1], threshold, stabilityRatio)
         == Measurements(answers[..i], threshold, stabilityRatio) + [Judge(answers[i], threshold, stabilityRatio, {})]
  {
    hide Judge;
    assert answers[..i + 1][..i] == answers[..i];
  }

  method CheckSpeed(books: Books, owners: map<string, string>, proxies: seq<Proxy>, answers: seq<SpeedEvidence>,
          threshold: int, stabilityRatio: real)
    returns (r: Books, fast: seq<Ranked>)
    requires |proxies| == |answers|
    ensures fast == Fast(proxies, Measurements(answers, threshold, stabilityRatio))
    ensures var ms := Measurements(answers, threshold, stabilityRatio);
            r == Books(WriteAll(books.reports, SpeedMarks(owners, proxies, ms)), Tally(books.outcomes, StatusesOf(ms)))
  {
    hide Write, SourceOf, Judge, WriteAll, Tally, SpeedMarks, Fast, StatusesOf, Measurements;
    r, fast := books, [];
    ghost var ms: seq<Measurement> := [];
    SpeedStart(books, owners, proxies[..0], ms, answers[..0], threshold, stabilityRatio);
    for i := 0 to |proxies|
      invariant ms == Measurements(answers[..i], threshold, stabilityRatio)
      invariant fast == Fast(proxies[..i], ms)
      invariant r == Books(WriteAll(books.reports, SpeedMarks(owners, proxies[..i], ms)),
                Tally(books.outcomes, StatusesOf(ms)))
    {
      var m := EvaluateSpeed(answers[i], threshold, stabilityRatio, {});
      MeasureStep(answers, threshold, stabilityRatio, i);
      SpeedMarksStep(owners, proxies[..i], proxies[i], ms, m);
      SpeedStep(books, owners, proxies[..i], proxies[i], ms, m);
      assert proxies[..i + 1] == proxies[..i] + [proxies[i]];
      ms := ms + [m];
      var source := SourceOf(owners, proxies[i]);
      var outcomes := r.outcomes[m.status := Number(r.outcomes, m.status) + 1];
      r := Books(Write(Write(r.reports, Note(source, SpeedTested)), Note(source, Status(m.status))), outcomes);
      if m.status == "qualified" || m.status == "speed_unavailable" {
        fast := fast + [Ranked(m.rate, proxies[i])];
      }
    }
    assert proxies[..|proxies|] == proxies && answers[..|proxies|] == answers;
  }

  // ----- The whole pass

  method ReachTcp(b: Backend, proxies: seq<Proxy>) returns (r: Result<seq<Ranked>, string>)
    ensures r == TcpStage(b, proxies)
  {
    var answers := b.tcp(proxies);
    if answers.Failure? {
      return Failure(answers.error);
    }
    if |answers.value| != |proxies| {
      return Failure("tcp result count mismatch");
    }
    var alive := KeepAlive(proxies, answers.value);
    r := Success(alive);
  }

  method ReachUrl(b: Backend, items: seq<Ranked>, limit: int) returns (r: Result<seq<Ranked>, string>)
    ensures r == UrlStage(b, ProxiesOf(Capped(items, limit)))
  {
    var source := items;
    if limit > 0 && |source| > limit {
      source := source[..limit];
    }
    var proxies := Proxies(source);
    var answers := b.url(proxies);
    if answers.Failure? {
      return Failure(answers.error);
    }
    if |answers.value| != |proxies| {
      return Failure("url result count mismatch");
    }
    var alive := KeepAlive(proxies, answers.value);
    r := Success(alive);
  }

  method MeasureLink(s: Settings, b: Backend) returns (plan: SpeedPlan)
    ensures plan == PlanSpeed(s, b.baseline)
  {
    var skipSpeed, minimumMbps := s.skipSpeed, s.minimumMbps;
    var thresholdSource := "configured_fallback";
    if skipSpeed {
      thresholdSource := "skipped";
    }
    if !skipSpeed {
      if b.baseline.Some? {
        var baseline := b.baseline.value;
        if baseline.Failure? || !baseline.value.ok || baseline.value.bytesPerSecond <= 0.0 {
          skipSpeed := true;
          thresholdSource := "speed_unavailable";
        } else {
          minimumMbps := baseline.value.bytesPerSecond * 8.0 / 1_000_000.0 * 0.1;
          thresholdSource := "wan_baseline";
        }
      }
    }
    plan := SpeedPlan(skipSpeed, minimumMbps, thresholdSource);
  }

  method PassCountries(b: Backend, reports: Reports, owners: map<string, string>, excluded: set<string>,
          items: seq<Ranked>)
    returns (r: Result<(Books, seq<Ranked>), string>)
    ensures var geo := GeoStage(b, excluded, items);
            && (geo.Failure? ==> r == Failure(geo.error))
            && (geo.Success? && excluded == {} ==> r == Success((Books(reports, Tally(map[], geo.value)), items)))
            && (geo.Success? && excluded != {} ==>
                  r == Success((Books(WriteAll(reports, GeoMarks(owners, items, geo.value)), Tally(map[], geo.value)),
                                GeoPassed(items, geo.value))))
  {
    hide WriteAll, Tally, GeoMarks, GeoPassed, GeoStatuses;
    GeoStart(reports, owners, excluded, [], [], []);
    if excluded == {} {
      return Success((Books(reports, map[]), items));
    }
    if b.geo.None? {
      return Failure("geo backend is required when country exclusions are enabled");
    }
    var proxies := Proxies(items);
    var answers := b.geo.value(proxies);
    if answers.Failure? {
      return Failure(answers.error);
    }
    if |answers.value| != |proxies| {
      return Failure("geo result count mismatch");
    }
    var books, passed := CheckCountries(reports, owners, excluded, items, answers.value);
    r := Success((books, passed));
  }

  method TestSpeed(b: Backend, books: Books, owners: map<string, string>, s: Settings, plan: SpeedPlan,
          items: seq<Ranked>)
    returns (r: Result<(Books, seq<Ranked>, nat), string>)
    ensures var tested := if plan.skip then [] else ProxiesOf(Capped(items, s.speedCandidates));
            var speed := SpeedStage(b, s, plan, tested);
            && (speed.Failure? ==> r == Failure(speed.error))
            && (speed.Success? ==>
                  r == Success((Books(WriteAll(books.reports, SpeedMarks(owners, tested, speed.value)),
                                      Tally(books.outcomes, StatusesOf(speed.value))),
                                if plan.skip then items else StableSort.Sort(Faster, Fast(tested, speed.value)),
                                |tested|)))
  {
    hide WriteAll, Tally, SpeedMarks, StatusesOf, Fast, Measurements, StableSort.Sort, ProxiesOf;
    SpeedStart(books, owners, [], [], [], 0, 0.0);
    if plan.skip {
      return Success((books, items, 0));
    }
    var source := items;
    if s.speedCandidates > 0 && |source| > s.speedCandidates {
      source := source[..s.speedCandidates];
    }
    var tested := Proxies(source);
    var evidence := b.speed(tested);
    if evidence.Failure? {
      return Failure(evidence.error);
    }
    if |evidence.value| != |tested| {
      return Failure("speed result count mismatch");
    }
    var threshold := Truncate(plan.minimumMbps * 1_000_000.0 / 8.0);
    var counted, fast := CheckSpeed(books, owners, tested, evidence.value, threshold, s.stabilityRatio);
    r := Success((counted, StableSort.Sort(Faster, fast), |tested|));
  }

  method Retain(owners: map<string, string>, reports: Reports, qualified: seq<Ranked>, keep: int)
    returns (r: Reports, proxies: seq<Proxy>)
    ensures proxies == ProxiesOf(Capped(qualified, keep))
    ensures r == WriteAll(WriteAll(reports, Marks(owners, ProxiesOf(qualified), Qualified)),
            Marks(owners, proxies, Retained))
  {
    hide WriteAll, Marks, ProxiesOf;
    var retained := qualified;
    if keep > 0 && |retained| > keep {
      retained := retained[..keep];
    }
    proxies := Proxies(qualified);
    r := Count(reports, owners, proxies, Qualified);
    proxies := Proxies(retained);
    r := Count(r, owners, proxies, Retained);
  }

  method Qualify(pool: string, proxies: seq<Proxy>, s: Settings, owners: map<string, string>, b: Backend)
    returns (r: Result<Outcome, string>)
    ensures var p := Pipeline(pool, proxies, s, b);
            && (p.Failure? ==> r == Failure(p.error))
            && (p.Success? ==> r == Success(OutcomeOf(pool, owners, proxies, p.value)))
  {
    hide WriteAll, Marks, GeoMarks, SpeedMarks, Tally, StatusesOf, ProxiesOf, GeoPassed, Fast, StableSort.Sort,
      TcpStage, UrlStage, GeoStage, SpeedStage, PlanSpeed, Log;
    var excluded := if pool == "whitelist" then {} else s.excludedCountries;
    var reports := Count(map[], owners, proxies, Input);
    var tcp := ReachTcp(b, proxies);
    if tcp.Failure? {
      return Failure(tcp.error);
    }
    var reached := Proxies(tcp.value);
    reports := Count(reports, owners, reached, TcpAlive);
    var url := ReachUrl(b, tcp.value, s.urlLimit);
    if url.Failure? {
      return Failure(url.error);
    }
    reached := Proxies(url.value);
    reports := Count(reports, owners, reached, UrlAlive);
    var geo := PassCountries(b, reports, owners, excluded, url.value);
    if geo.Failure? {
      return Failure(geo.error);
    }
    var geoAlive := geo.value.1;
    var plan := MeasureLink(s, b);
    var speed := TestSpeed(b, geo.value.0, owners, s, plan, geoAlive);
    if speed.Failure? {
      return Failure(speed.error);
    }
    var books, qualified := speed.value.0, speed.value.1;
    reports, reached := Retain(owners, books.reports, qualified, s.keep);
    LogInStages(owners, proxies, Pipeline(pool, proxies, s, b).value);
    r := Success(Outcome(reached,
                         Report(pool, |proxies|, |tcp.value|, |url.value|, excluded != {},
                                if excluded != {} then |geoAlive| else 0, if plan.skip then 0 else 2, speed.value.2,
                                |qualified|, |reached|, plan.source, books.outcomes, reports)));
  }

  /** Writing the log stage by stage. */
  lemma {:induction false} LogInStages(owners: map<string, string>, proxies: seq<Proxy>, p: Pass)
    requires Fits(p)
    ensures var input := WriteAll(map[], Marks(owners, proxies, Input));
            var tcp := WriteAll(input, Marks(owners, ProxiesOf(p.tcpAlive), TcpAlive));
            var url := WriteAll(tcp, Marks(owners, ProxiesOf(p.urlAlive), UrlAlive));
            var geo := if p.geoEnabled then WriteAll(url, GeoMarks(owners, p.urlAlive, p.statuses)) else url;
            var speed := WriteAll(geo, SpeedMarks(owners, p.tested, p.measurements));
            var qualified := WriteAll(speed, Marks(owners, ProxiesOf(p.qualified), Qualified));
            WriteAll(map[], Log(owners, proxies, p)) == WriteAll(qualified,
                Marks(owners, ProxiesOf(p.retained), Retained))
  {
    hide Marks, GeoMarks, SpeedMarks, Write, GeoPassed, ProxiesOf;
    var input, tcp, url := Marks(owners, proxies, Input), Marks(owners, ProxiesOf(p.tcpAlive), TcpAlive),
        Marks(owners, ProxiesOf(p.urlAlive), UrlAlive);
    WriteMore(map[], input, tcp);
    WriteMore(map[], input + tcp, url);
    var geo := if p.geoEnabled then GeoMarks(owners, p.urlAlive, p.statuses) else [];
    var speed := SpeedMarks(owners, p.tested, p.measurements);
    var early := EarlyLog(owners, proxies, p);
    WriteMore(WriteAll(map[], early), geo, speed);
    WriteMore(map[], early, TestLog(owners, p));
    var qualified, retained := Marks(owners, ProxiesOf(p.qualified), Qualified),
        Marks(owners, ProxiesOf(p.retained), Retained);
    WriteMore(map[], early + TestLog(owners, p), LateLog(owners, p));
    WriteMore(WriteAll(map[], early + TestLog(owners, p)), qualified, retained);
  }
}
