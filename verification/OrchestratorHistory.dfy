/** The session and its actions, told from the events so far. */
module OrchestratorHistory {
  import opened Wrappers
  import opened Whitelist
  import opened WhitelistForm
  import opened Orchestrator
  import opened OrchestratorRuns

  // ----- The session

  /** The mode last probed, if any. */
  function ProbedMode(events: seq<Event>): Network {
    if events == [] then Unknown
    else
      var front, e := events[..|events| - 1], events[|events| - 1];
      if e.Probed? && !e.mode.Unknown? then e.mode else ProbedMode(front)
  }

  /** The mode probed before that. */
  function ModeBefore(events: seq<Event>): Network {
    if events == [] then Unknown
    else
      var front, e := events[..|events| - 1], events[|events| - 1];
      if e.Probed? && !e.mode.Unknown? then ProbedMode(front) else ModeBefore(front)
  }

  lemma {:induction false} ModeFollows(env: Env, events: seq<Event>)
    ensures After(env, events).mode == ProbedMode(events) && After(env, events).previousMode == ModeBefore(events)
  {
    hide Transition;
    if events != [] {
      ModeFollows(env, events[..|events| - 1]);
    }
  }

  /** Something happened, and since then nothing that ends it. */
  ghost predicate Since(n: nat, starts: nat -> bool, ends: nat -> bool) {
    exists i: nat :: i < n && starts(i) && forall j: nat :: i < j < n ==> !ends(j)
  }

  lemma {:induction false} SinceStep(n: nat, starts: nat -> bool, ends: nat -> bool)
    ensures Since(n + 1, starts, ends) <==> starts(n) || (Since(n, starts, ends) && !ends(n))
  {
    if Since(n, starts, ends) && !ends(n) {
      var i: nat :| i < n && starts(i) && forall j: nat :: i < j < n ==> !ends(j);
      assert forall j: nat :: i < j < n + 1 ==> !ends(j);
    }
  }

  lemma {:induction false} SinceSame(n: nat, starts: nat -> bool, ends: nat -> bool, starts': nat -> bool,
          ends': nat -> bool)
    requires forall i: nat :: i < n ==> starts(i) == starts'(i) && ends(i) == ends'(i)
    ensures Since(n, starts, ends) == Since(n, starts', ends')
  {
    if i: nat :| i < n && starts(i) && forall j: nat :: i < j < n ==> !ends(j) {
      assert starts'(i) && forall j: nat :: i < j < n ==> !ends'(j);
    }
    if i: nat :| i < n && starts'(i) && forall j: nat :: i < j < n ==> !ends'(j) {
      assert starts(i) && forall j: nat :: i < j < n ==> !ends(j);
    }
  }

  /** Event `i` ended a scan with an empty pool. */
  predicate FoundNothing(env: Env, events: seq<Event>, i: nat) {
    i < |events| && events[i].ScanComplete? && After(env, events[..i]).whitelist.nodes == []
  }

  function Enables(events: seq<Event>): nat -> bool {
    (i: nat) => i < |events| && events[i].Enable?
  }

  function Disables(env: Env, events: seq<Event>): nat -> bool {
    (i: nat) => i < |events| && (events[i].Disable? || FoundNothing(env, events, i))
  }

  function Connects(events: seq<Event>): nat -> bool {
    (i: nat) => i < |events| && events[i].Connected?
  }

  function Disconnects(env: Env, events: seq<Event>): nat -> bool {
    (i: nat) => i < |events| && (events[i].Disable? || events[i].ConnectFailed? || FoundNothing(env, events, i))
  }

  function Exhausts(env: Env, events: seq<Event>): nat -> bool {
    (i: nat) => FoundNothing(env, events, i)
  }

  function Clears(events: seq<Event>): nat -> bool {
    (i: nat) => i < |events| && (events[i].Connected? || events[i].Disable?)
  }

  /** What an event does to the flags; `nothing` says that it ends a scan with an empty pool. */
  lemma {:induction false} NextFlags(env: Env, s: Session, e: Event, nothing: bool)
    requires nothing <==> e.ScanComplete? && PoolAfter(env, s.whitelist, Complete).nodes == []
    ensures var r := Next(env, s, e);
            var t := if r.Success? then r.value.0 else s;
            && t.enabled == (e.Enable? || (s.enabled && !e.Disable? && !nothing))
            && t.connected == (e.Connected? || (s.connected && !e.Disable? && !e.ConnectFailed? && !nothing))
            && t.lastError == (if nothing then "whitelist_pool_empty"
                               else if e.Connected? || e.Disable? then "" else s.lastError)
  {
    hide Transition, PoolAfter, Candidate;
  }

  lemma {:induction false} FlagStep(env: Env, events: seq<Event>)
    requires events != []
    ensures var n := |events| - 1;
            var s, t := After(env, events[..n]), After(env, events);
            && t.enabled == (Enables(events)(n) || (s.enabled && !Disables(env, events)(n)))
            && t.connected == (Connects(events)(n) || (s.connected && !Disconnects(env, events)(n)))
            && t.lastError == (if Exhausts(env, events)(n) then "whitelist_pool_empty"
                               else if Clears(events)(n) then "" else s.lastError)
  {
    var n := |events| - 1;
    var s := After(env, events[..n]);
    CompletedPool(env, s.whitelist, events[..n]);
    hide PoolAfter, Next;
    NextFlags(env, s, events[n], FoundNothing(env, events, n));
  }

  /** Completing a scan leaves the nodes alone. */
  lemma {:induction false} CompletedPool(env: Env, s: State, events: seq<Event>)
    requires s == After(env, events).whitelist
    ensures PoolAfter(env, s, Complete).nodes == s.nodes
  {
    hide Normalize, Canonical, AllAvailable;
    RunsStayReady(env, events);
    CanonicalIffFixed(env, s);
  }

  lemma {:induction false} PrefixAgrees(env: Env, events: seq<Event>, i: nat)
    requires events != [] && i < |events| - 1
    ensures var front := events[..|events| - 1];
            front[i] == events[i] && FoundNothing(env, front, i) == FoundNothing(env, events, i)
  {
    assert events[..|events| - 1][..i] == events[..i];
  }

  /** After every run the session is enabled, connected or marked as exhausted exactly if something made it so and
      nothing undid it since; its modes are those probed last. */
  lemma {:induction false} SessionFollowsEvents(env: Env, events: seq<Event>)
    ensures var s, n := After(env, events), |events|;
            && (s.enabled <==> Since(n, Enables(events), Disables(env, events)))
            && (s.connected <==> Since(n, Connects(events), Disconnects(env, events)))
            && s.lastError == (if Since(n, Exhausts(env, events), Clears(events)) then "whitelist_pool_empty" else "")
            && s.mode == ProbedMode(events) && s.previousMode == ModeBefore(events)
    decreases |events|
  {
    hide Next, FoundNothing;
    ModeFollows(env, events);
    if events != [] {
      var n := |events| - 1;
      var front := events[..n];
      SessionFollowsEvents(env, front);
      FlagStep(env, events);
      forall i: nat | i < n
        ensures front[i] == events[i] && FoundNothing(env, front, i) == FoundNothing(env, events, i)
      {
        PrefixAgrees(env, events, i);
      }
      hide After;
      SinceSame(n, Enables(front), Disables(env, front), Enables(events), Disables(env, events));
      SinceSame(n, Connects(front), Disconnects(env, front), Connects(events), Disconnects(env, events));
      SinceSame(n, Exhausts(env, front), Clears(front), Exhausts(env, events), Clears(events));
      SinceStep(n, Enables(events), Disables(env, events));
      SinceStep(n, Connects(events), Disconnects(env, events));
      SinceStep(n, Exhausts(env, events), Clears(events));
    }
  }

  // ----- The pool

  /** What an event asks of the pool, given the mode probed last and whether the session is connected. */
  function Commands(e: Event, mode: Network, connected: bool): seq<Command> {
    match e
    case Disable => [Deactivate]
    case Probed(Allowlist) => if mode.Allowlist? then [] else [Begin]
    case Probed(Normal) => if mode.Allowlist? then [Deactivate] else []
    case SourceAdded(sourceId, nodes) =>
      [AddSource(sourceId, nodes)] + if mode.Allowlist? && !connected then [Request] else []
    case SourceReplaced(sourceId, nodes) =>
      [ReplaceSource(sourceId, nodes)] + if mode.Allowlist? && !connected then [Request] else []
    case Connected(nodeId) => [Confirm(nodeId)]
    case ConnectFailed(nodeId) => [Fail(nodeId)]
    case ScanComplete => [Complete] + if connected then [] else [Request]
    case _ => []
  }

  function Applied(env: Env, pool: State, commands: seq<Command>): State
    decreases |commands|
  {
    if commands == [] then pool else Applied(env, PoolAfter(env, pool, commands[0]), commands[1..])
  }

  /** The node the last of the commands answered with. */
  function Answer(env: Env, pool: State, commands: seq<Command>): Option<Node>
    decreases |commands|
  {
    if commands == [] then None
    else if |commands| == 1 then Candidate(env, pool, commands[0])
    else Answer(env, PoolAfter(env, pool, commands[0]), commands[1..])
  }

  /** An event is refused exactly if it probes nothing, names no source, or is unknown. */
  predicate Refused(e: Event) {
    || (e.Probed? && e.mode.Unknown?) || ((e.SourceAdded? || e.SourceReplaced?) && e.sourceId == "") || e.UnknownEvent?
  }

  lemma {:induction false} RefusedIff(env: Env, s: Session, e: Event)
    requires Ready(env, s.whitelist)
    ensures Next(env, s, e).Failure? <==> Refused(e)
    ensures Next(env, s, e).Failure? ==>
              Next(env, s, e).error == if e.Probed? then "invalid_connectivity_mode"
                                       else if e.UnknownEvent? then "unknown_orchestrator_event" else
                                       "source_id_required"
  {
    hide Normalize, PoolAfter, Candidate;
  }

  /** Every accepted event sends the pool its commands, and nothing else. */
  lemma {:induction false} PoolFollowsCommands(env: Env, events: seq<Event>, e: Event)
    requires !Refused(e)
    ensures var s := After(env, events);
            After(env, events + [e]).whitelist == Applied(env, s.whitelist, Commands(e, s.mode, s.connected))
  {
    var s := After(env, events);
    RunsStayReady(env, events);
    RefusedIff(env, s, e);
    assert After(env, events + [e]) == Next(env, s, e).value.0 by {
      assert (events + [e])[..|events|] == events;
    }
    EmptyRequest(env, s.whitelist, events);
    hide After;
    NextPool(env, s, e);
  }

  lemma {:induction false} NextPool(env: Env, s: Session, e: Event)
    requires Next(env, s, e).Success?
    requires var pool := PoolAfter(env, s.whitelist, Complete);
             pool.nodes == [] ==> PoolAfter(env, pool, Request) == pool
    ensures Next(env, s, e).value.0.whitelist == Applied(env, s.whitelist, Commands(e, s.mode, s.connected))
  {
    hide Transition, Candidate, Applied;
    match e
    case Disable => AppliedOnce(env, s.whitelist, Deactivate);
    case Probed(mode) =>
      NothingApplied(env, s.whitelist);
      AppliedOnce(env, s.whitelist, if mode.Normal? then Deactivate else Begin);
    case SourceAdded(sourceId, nodes) => AppliedTwice(env, s.whitelist, AddSource(sourceId, nodes));
    case SourceReplaced(sourceId, nodes) => AppliedTwice(env, s.whitelist, ReplaceSource(sourceId, nodes));
    case Connected(nodeId) => AppliedOnce(env, s.whitelist, Confirm(nodeId));
    case ConnectFailed(nodeId) => AppliedOnce(env, s.whitelist, Fail(nodeId));
    case ScanComplete => AppliedTwice(env, s.whitelist, Complete);
    case _ => NothingApplied(env, s.whitelist);
  }

  lemma {:induction false} NothingApplied(env: Env, pool: State)
    ensures Applied(env, pool, []) == pool && Answer(env, pool, []) == None
  {
  }

  lemma {:induction false} AppliedOnce(env: Env, pool: State, c: Command)
    ensures Applied(env, pool, [c]) == PoolAfter(env, pool, c) && Answer(env, pool, [c]) == Candidate(env, pool, c)
  {
    hide PoolAfter, Candidate;
    assert [c][1..] == [];
  }

  /** The command alone, and a request after it. */
  lemma {:induction false} AppliedTwice(env: Env, pool: State, c: Command)
    ensures Applied(env, pool, [c] + []) == PoolAfter(env, pool, c)
    ensures Answer(env, pool, [c] + []) == Candidate(env, pool, c)
    ensures Applied(env, pool, [c] + [Request]) == PoolAfter(env, PoolAfter(env, pool, c), Request)
    ensures Answer(env, pool, [c] + [Request]) == Candidate(env, PoolAfter(env, pool, c), Request)
  {
    hide PoolAfter, Candidate;
    AppliedOnce(env, pool, c);
    AppliedOnce(env, PoolAfter(env, pool, c), Request);
    assert [c] + [] == [c] && ([c] + [Request])[1..] == [Request];
  }

  /** Asking an empty pool changes nothing. */
  lemma {:induction false} EmptyRequest(env: Env, s: State, events: seq<Event>)
    requires s == After(env, events).whitelist
    ensures s.nodes == [] ==>
              PoolAfter(env, PoolAfter(env, s, Complete), Request) == PoolAfter(env, s, Complete)
  {
    RunsStayReady(env, events);
    hide Normalize, AllAvailable, CanonicalNodes;
    CanonicalIffFixed(env, s);
    CanonicalIffFixed(env, s.(scanActive := false));
  }

  // ----- The actions

  /** What the session does about an event, told from the mode probed last, whether it is connected, and what the pool
      answers and has left: ordinary operation is restored exactly when the restricted network is left, a full scan
      starts exactly when one is entered or no server is left, and so on. */
  lemma {:induction false} ActionsFollowEvents(env: Env, events: seq<Event>, e: Event)
    requires !Refused(e)
    ensures var s, t := After(env, events), After(env, events + [e]);
            var answer := Answer(env, s.whitelist, Commands(e, s.mode, s.connected));
            Next(env, s, e).Success? &&
            var action := Next(env, s, e).value.1;
            && (action.RestoreNormal? <==> e == Probed(Normal) && ProbedMode(events).Allowlist?)
            && (action.Pause? <==> e == Probed(Offline))
            && (action.ScanAllCached? <==>
                || (e == Probed(Allowlist) && !ProbedMode(events).Allowlist?)
                || (e.ConnectFailed? && answer.None?))
            && (action.Connect? <==>
                || ((e.SourceAdded? || e.SourceReplaced?) && ProbedMode(events).Allowlist? && !s.connected
                    && answer.Some?)
                || (e.ConnectFailed? && answer.Some?)
                || (e.ScanComplete? && !s.connected && t.whitelist.nodes != []))
            && (action.Connect? ==> action.candidate == answer && answer.Some?)
            && (action.RefreshSequentially? <==> e.ScanComplete? && s.connected && t.whitelist.nodes != [])
            && (action.Stop? <==> e.Disable? || (e.ScanComplete? && t.whitelist.nodes == []))
            && (action.ContinueScan? <==> e.Connected?)
            && (action.Probe? <==> e.Enable?)
  {
    var s := After(env, events);
    RunsStayReady(env, events);
    RefusedIff(env, s, e);
    ModeFollows(env, events);
    assert After(env, events + [e]) == Next(env, s, e).value.0 by {
      assert (events + [e])[..|events|] == events;
    }
    EmptyRequest(env, s.whitelist, events);
    ConnectsAreOffers(env, events, e);
    CompletedPool(env, s.whitelist, events);
    hide After, ProbedMode, Ready;
    NextAction(env, s, e);
  }

  lemma {:induction false} NextAction(env: Env, s: Session, e: Event)
    requires Next(env, s, e).Success?
    ensures var (t, action) := Next(env, s, e).value;
            var answer := Answer(env, s.whitelist, Commands(e, s.mode, s.connected));
            action == match e
              case Enable => Probe
              case Disable => Stop
              case Probed(mode) =>
                if mode.Offline? then Pause
                else if mode.Allowlist? && !s.mode.Allowlist? then ScanAllCached
                else if mode.Normal? && s.mode.Allowlist? then RestoreNormal else NoAction
              case SourceAdded(_, _) =>
                if s.mode.Allowlist? && !s.connected && answer.Some? then Connect(answer) else NoAction
              case SourceReplaced(_, _) =>
                if s.mode.Allowlist? && !s.connected && answer.Some? then Connect(answer) else NoAction
              case Connected(_) => ContinueScan
              case ConnectFailed(_) => if answer.Some? then Connect(answer) else ScanAllCached
              case ScanComplete =>
                if PoolAfter(env, s.whitelist, Complete).nodes == [] then Stop
                else if s.connected then RefreshSequentially else Connect(answer)
              case UnknownEvent => NoAction
  {
    hide Transition, Candidate, Answer, PoolAfter;
    match e
    case SourceAdded(sourceId, nodes) =>
      AppliedTwice(env, s.whitelist, AddSource(sourceId, nodes));
      AcceptedPool(env, s.whitelist, AddSource(sourceId, nodes));
    case SourceReplaced(sourceId, nodes) =>
      AppliedTwice(env, s.whitelist, ReplaceSource(sourceId, nodes));
      AcceptedPool(env, s.whitelist, ReplaceSource(sourceId, nodes));
    case ConnectFailed(nodeId) => AppliedOnce(env, s.whitelist, Fail(nodeId));
    case ScanComplete => AppliedTwice(env, s.whitelist, Complete);
    case _ =>
  }

  lemma {:induction false} AcceptedPool(env: Env, s: State, c: Command)
    requires Transition(env, s, c).Success?
    ensures PoolAfter(env, s, c) == Transition(env, s, c).value.state
  {
  }
}
