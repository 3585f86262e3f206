/** Connectivity transitions layered on the restricted-network pool. */
module Orchestrator {
  import opened Wrappers
  import opened Whitelist

  datatype Network = Normal | Allowlist | Offline | Unknown

  datatype Session = Session(
    mode: Network, previousMode: Network, enabled: bool, connected: bool, whitelist: State, lastError: string)

  const EMPTY_SESSION := Session(Unknown, Unknown, false, false, EMPTY, "")

  datatype Event =
    | Enable
    | Disable
    | Probed(mode: Network)
    | SourceAdded(sourceId: string, nodes: seq<Node>)
    | SourceReplaced(sourceId: string, nodes: seq<Node>)
    | Connected(nodeId: string)
    | ConnectFailed(nodeId: string)
    | ScanComplete
    | UnknownEvent

  datatype Action =
    | NoAction | Probe | Stop | Pause | ScanAllCached | RestoreNormal | ContinueScan | RefreshSequentially
    | Connect(candidate: Option<Node>)

  function PoolAfter(env: Env, s: State, command: Command): State {
    var r := Transition(env, s, command);
    if r.Success? then r.value.state else s
  }

  function Candidate(env: Env, s: State, command: Command): Option<Node> {
    var r := Transition(env, s, command);
    if r.Success? then r.value.candidate else None
  }

  /** A source arrived: on a restricted network an idle session asks for a node at once. */
  function Arrived(env: Env, s: Session, command: Command): Result<(Session, Action), string> {
    var r := Transition(env, s.whitelist, command);
    if r.Failure? then Failure(r.error)
    else if s.mode.Allowlist? && !s.connected then
      var pool := PoolAfter(env, r.value.state, Request);
      var candidate := Candidate(env, r.value.state, Request);
      Success((s.(whitelist := pool), if candidate.Some? then Connect(candidate) else NoAction))
    else Success((s.(whitelist := r.value.state), NoAction))
  }

  function Finished(env: Env, s: Session): (Session, Action) {
    var pool := PoolAfter(env, s.whitelist, Complete);
    if pool.nodes == [] then
      (s.(whitelist := pool, enabled := false, connected := false, lastError := "whitelist_pool_empty"), Stop)
    else if s.connected then (s.(whitelist := pool), RefreshSequentially)
    else (s.(whitelist := PoolAfter(env, pool, Request)), Connect(Candidate(env, pool, Request)))
  }

  function Probing(env: Env, s: Session, mode: Network): Result<(Session, Action), string> {
    var t := s.(previousMode := s.mode, mode := mode);
    match mode
    case Unknown => Failure("invalid_connectivity_mode")
    case Offline => Success((t, Pause))
    case Allowlist =>
      if s.mode.Allowlist? then Success((t, NoAction))
      else Success((t.(whitelist := PoolAfter(env, s.whitelist, Begin)), ScanAllCached))
    case Normal =>
      if s.mode.Allowlist? then Success((t.(whitelist := PoolAfter(env, s.whitelist, Deactivate)), RestoreNormal))
      else Success((t, NoAction))
  }

  function Next(env: Env, s: Session, event: Event): Result<(Session, Action), string> {
    match event
    case Enable => Success((s.(enabled := true), Probe))
    case Disable =>
      Success((s.(enabled := false, connected := false, lastError := "",
          whitelist := PoolAfter(env, s.whitelist, Deactivate)), Stop))
    case Probed(mode) => Probing(env, s, mode)
    case SourceAdded(sourceId, nodes) => Arrived(env, s, AddSource(sourceId, nodes))
    case SourceReplaced(sourceId, nodes) => Arrived(env, s, ReplaceSource(sourceId, nodes))
    case Connected(nodeId) =>
      Success((s.(whitelist := PoolAfter(env, s.whitelist, Confirm(nodeId)), connected := true, lastError := ""),
          ContinueScan))
    case ConnectFailed(nodeId) =>
      var candidate := Candidate(env, s.whitelist, Fail(nodeId));
      Success((s.(connected := false, whitelist := PoolAfter(env, s.whitelist, Fail(nodeId))),
               if candidate.Some? then Connect(candidate) else ScanAllCached))
    case ScanComplete => Success(Finished(env, s))
    case UnknownEvent => Failure("unknown_orchestrator_event")
  }

  method Handle(env: Env, input: Session, event: Event) returns (r: Result<(Session, Action), string>)
    ensures r == Next(env, input, event)
  {
    hide Normalize, Execute;
    var state, action := input, NoAction;
    match event {
      case Enable =>
        state := state.(enabled := true);
        action := Probe;
      case Disable =>
        state := state.(enabled := false, connected := false, lastError := "");
        var pool := RunTransition(env, state.whitelist, Deactivate);
        Accepted(env, input.whitelist, Deactivate);
        state := state.(whitelist := pool.value.state);
        action := Stop;
      case Probed(mode) =>
        r := HandleProbe(env, state, mode);
        return;
      case SourceAdded(sourceId, nodes) =>
        r := HandleArrival(env, state, AddSource(sourceId, nodes));
        return;
      case SourceReplaced(sourceId, nodes) =>
        r := HandleArrival(env, state, ReplaceSource(sourceId, nodes));
        return;
      case Connected(nodeId) =>
        var pool := RunTransition(env, state.whitelist, Confirm(nodeId));
        Accepted(env, input.whitelist, Confirm(nodeId));
        state := state.(whitelist := pool.value.state, connected := true, lastError := "");
        action := ContinueScan;
      case ConnectFailed(nodeId) =>
        state := state.(connected := false);
        var pool := RunTransition(env, state.whitelist, Fail(nodeId));
        Accepted(env, input.whitelist, Fail(nodeId));
        state := state.(whitelist := pool.value.state);
        if pool.value.candidate.Some? {
          action := Connect(pool.value.candidate);
        } else {
          action := ScanAllCached;
        }
      case ScanComplete =>
        var session, chosen := HandleComplete(env, state);
        return Success((session, chosen));
      case UnknownEvent => return Failure("unknown_orchestrator_event");
    }
    return Success((state, action));
  }

  method HandleProbe(env: Env, input: Session, mode: Network) returns (r: Result<(Session, Action), string>)
    ensures r == Probing(env, input, mode)
  {
    hide Normalize, Execute;
    if mode.Unknown? {
      return Failure("invalid_connectivity_mode");
    }
    var old' := input.mode;
    var state, action := input.(previousMode := old', mode := mode), NoAction;
    match mode {
      case Offline => action := Pause;
      case Allowlist =>
        if !old'.Allowlist? {
          var pool := RunTransition(env, state.whitelist, Begin);
          Accepted(env, input.whitelist, Begin);
          state := state.(whitelist := pool.value.state);
          action := ScanAllCached;
        }
      case Normal =>
        if old'.Allowlist? {
          var pool := RunTransition(env, state.whitelist, Deactivate);
          Accepted(env, input.whitelist, Deactivate);
          state := state.(whitelist := pool.value.state);
          action := RestoreNormal;
        }
    }
    return Success((state, action));
  }

  method HandleArrival(env: Env, input: Session, command: Command) returns (r: Result<(Session, Action), string>)
    ensures r == Arrived(env, input, command)
  {
    hide Normalize, Execute;
    var pool := RunTransition(env, input.whitelist, command);
    if pool.Failure? {
      return Failure(pool.error);
    }
    var state, action := input.(whitelist := pool.value.state), NoAction;
    if state.mode.Allowlist? && !state.connected {
      var requested := RunTransition(env, state.whitelist, Request);
      Accepted(env, state.whitelist, Request);
      state := state.(whitelist := requested.value.state);
      if requested.value.candidate.Some? {
        action := Connect(requested.value.candidate);
      }
    }
    return Success((state, action));
  }

  method HandleComplete(env: Env, input: Session) returns (state: Session, action: Action)
    ensures (state, action) == Finished(env, input)
  {
    hide Normalize, Execute;
    var pool := RunTransition(env, input.whitelist, Complete);
    Accepted(env, input.whitelist, Complete);
    state := input.(whitelist := pool.value.state);
    if |pool.value.state.nodes| == 0 {
      state := state.(enabled := false, connected := false, lastError := "whitelist_pool_empty");
      action := Stop;
    } else if state.connected {
      action := RefreshSequentially;
    } else {
      var requested := RunTransition(env, state.whitelist, Request);
      Accepted(env, state.whitelist, Request);
      state := state.(whitelist := requested.value.state);
      action := Connect(requested.value.candidate);
    }
  }

  /** Commands the pool never refuses. */
  predicate NeverRefused(command: Command) {
    command.Begin? || command.Deactivate? || command.Confirm? || command.Fail? || command.Complete? || command.Request?
  }

  lemma {:induction false} Accepted(env: Env, s: State, command: Command)
    requires NeverRefused(command)
    ensures Transition(env, s, command).Success?
  {
    hide Normalize;
  }
}
