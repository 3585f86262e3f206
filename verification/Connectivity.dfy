/** Classifying and confirming the state of the physical network. */
module Connectivity {
  import opened Wrappers

  /** `NoState` is the empty string of a missing state. */
  datatype NetworkState = NoState | Unknown | Normal | Allowlist | Offline | OtherState(name: string)

  predicate ValidObserved(s: NetworkState) {
    s.Normal? || s.Allowlist? || s.Offline?
  }

  datatype ProbeResults = ProbeResults(physical: bool, allowlist: bool, configuredOpen: bool, anchorGitHub: bool,
          anchorMozilla: bool)

  /** Unrestricted only on the configured target or on both anchors; one anchor may be on an allowlist. */
  function Classify(p: ProbeResults): (s: NetworkState)
    ensures ValidObserved(s)
    ensures s.Offline? <==> p == ProbeResults(false, false, false, false, false)
  {
    if p.configuredOpen || (p.anchorGitHub && p.anchorMozilla) then Normal
    else if p.physical || p.allowlist || p.configuredOpen || p.anchorGitHub || p.anchorMozilla then Allowlist
    else Offline
  }

  /** What the probes say: open on the configured target or on both anchors, cut off if nothing answers, and otherwise
      restricted; so a single anchor, which may be on an allowlist, never counts as open. */
  lemma {:induction false} ClassifiedByProbes(p: ProbeResults)
    ensures Classify(p).Normal? <==> p.configuredOpen || (p.anchorGitHub && p.anchorMozilla)
    ensures Classify(p).Offline? <==>
              !p.physical && !p.allowlist && !p.configuredOpen && !p.anchorGitHub && !p.anchorMozilla
    ensures !p.configuredOpen && p.anchorGitHub != p.anchorMozilla ==> Classify(p).Allowlist?
  {
  }

  datatype Carried = Carried(confirmed: NetworkState, candidate: NetworkState, count: int, since: int)

  datatype Confirmation = Confirmation(carried: Carried, changed: bool)

  const HOLD_MS := 20_000

  function Required(confirmed: NetworkState, observed: NetworkState): int {
    if observed.Normal? then 1
    else if observed.Allowlist? then 3
    else if observed.Offline? && !confirmed.Unknown? then 3
    else if confirmed.Offline? then 1
    else 2
  }

  function ConfirmState(c: Carried, observed: NetworkState, now: int): Result<Confirmation, string> {
    if !ValidObserved(observed) then Failure("invalid_connectivity_observation")
    else if !c.confirmed.NoState? && !c.confirmed.Unknown? && !ValidObserved(c.confirmed) then
      Failure("invalid_confirmed_connectivity_state")
    else
      var confirmed := if c.confirmed.NoState? then Unknown else c.confirmed;
      if observed == confirmed then Success(Confirmation(Carried(confirmed, NoState, 0, 0), false))
      else
        var running := c.candidate == observed && c.count > 0;
        var count := if running then c.count + 1 else 1;
        var since := if running && 0 < c.since <= now then c.since else now;
        var held := !observed.Allowlist? || now == 0 || now - since >= HOLD_MS;
        if count >= Required(confirmed, observed) && held then
          Success(Confirmation(Carried(observed, NoState, 0, 0), true))
        else Success(Confirmation(Carried(confirmed, observed, count, since), false))
  }

  method Confirm(c: Carried, observed: NetworkState, now: int) returns (r: Result<Confirmation, string>)
    ensures r == ConfirmState(c, observed, now)
  {
    if !ValidObserved(observed) {
      return Failure("invalid_connectivity_observation");
    }
    if c.confirmed != NoState && c.confirmed != Unknown && !ValidObserved(c.confirmed) {
      return Failure("invalid_confirmed_connectivity_state");
    }
    var confirmed := c.confirmed;
    if confirmed == NoState {
      confirmed := Unknown;
    }
    if observed == confirmed {
      return Success(Confirmation(Carried(confirmed, NoState, 0, 0), false));
    }
    var candidate, count := observed, 1;
    var since := now;
    if c.candidate == observed && c.count > 0 {
      count := c.count + 1;
      if c.since > 0 && c.since <= now {
        since := c.since;
      }
    }
    var required := 2;
    if confirmed == Offline {
      required := 1;
    }
    if observed == Normal {
      required := 1;
    } else if observed == Allowlist {
      required := 3;
    } else if observed == Offline && confirmed != Unknown {
      required := 3;
    }
    var heldLongEnough := observed != Allowlist || now == 0 || now - since >= HOLD_MS;
    if count >= required && heldLongEnough {
      return Success(Confirmation(Carried(observed, NoState, 0, 0), observed != confirmed));
    }
    return Success(Confirmation(Carried(confirmed, candidate, count, since), false));
  }

  // ----- The definition over the whole history

  /** The physical network an observation was made on. */
  datatype Place = Place(interfaceName: string, network: string)

  datatype Sample = Sample(place: Place, observed: NetworkState, now: int)

  /** Positive clock readings that never run backwards, and observations of the three states. */
  ghost predicate History(h: seq<Sample>) {
    && (forall i :: 0 <= i < |h| ==> ValidObserved(h[i].observed) && h[i].now > 0)
    && (forall i, j :: 0 <= i < j < |h| ==> h[i].now <= h[j].now)
  }

  /** The last observation was made on another network than the one before. */
  predicate Moved(h: seq<Sample>) {
    |h| > 1 && h[|h| - 2].place != h[|h| - 1].place
  }

  /** Length of the unbroken run of equal observations on one network at the end. */
  function Trailing(h: seq<Sample>): (n: nat)
    ensures n <= |h|
    ensures h != [] ==> n >= 1
  {
    if h == [] then 0
    else
      var front := h[..|h| - 1];
      if front != [] && front[|front| - 1].observed == h[|h| - 1].observed && !Moved(h) then Trailing(front) + 1 else 1
  }

  /** Time from the first to the last observation of that run. */
  function TrailingSpan(h: seq<Sample>): int
    requires h != []
  {
    h[|h| - 1].now - h[|h| - Trailing(h)].now
  }

  /** Whether the trailing run is enough to leave `confirmed`. */
  predicate Convincing(confirmed: NetworkState, h: seq<Sample>)
    requires h != []
  {
    match h[|h| - 1].observed
    case Normal => true
    case Allowlist => Trailing(h) >= 3 && TrailingSpan(h) >= 20_000
    case Offline => Trailing(h) >= if confirmed.Unknown? then 2 else 3
    case _ => false
  }

  /** The confirmed state as the history defines it. */
  function Settled(h: seq<Sample>): NetworkState {
    if h == [] then Unknown
    else
      var before := Settled(h[..|h| - 1]);
      if Convincing(before, h) then h[|h| - 1].observed else before
  }

  const START := Carried(Unknown, NoState, 0, 0)

  /** A candidate is dropped on another network. */
  function Dropped(c: Carried): Carried {
    c.(candidate := NoState, count := 0, since := 0)
  }

  /** The fields carried after the history, from those stored before it. */
  function CarriedFrom(start: Carried, h: seq<Sample>): Carried {
    if h == [] then start
    else
      var before := CarriedFrom(start, h[..|h| - 1]);
      var r := ConfirmState(if Moved(h) then Dropped(before) else before, h[|h| - 1].observed, h[|h| - 1].now);
      if r.Success? then r.value.carried else before
  }

  function CarriedAfter(h: seq<Sample>): Carried {
    CarriedFrom(START, h)
  }

  /** Monitoring that starts without a stored state, as with a missing file, goes on as if the state was unknown. */
  lemma {:induction false} MissingIsUnknown(stored: Carried, h: seq<Sample>)
    requires stored.confirmed.NoState? && (stored.candidate.NoState? || stored.count <= 0)
    requires History(h) && h != []
    ensures CarriedFrom(stored, h) == CarriedAfter(h)
  {
    if |h| > 1 {
      MissingIsUnknown(stored, h[..|h| - 1]);
    } else {
      var front := h[..|h| - 1];
      assert front == [] && CarriedFrom(stored, front) == stored && CarriedFrom(START, front) == START;
      assert ValidObserved(h[0].observed);
    }
  }

  /** The carried fields agree with the history: the state, and for an unsettled run its length and start. */
  ghost predicate Agrees(c: Carried, h: seq<Sample>) {
    && c.confirmed == Settled(h)
    && (h == [] ==> c == START)
    && (h != [] && h[|h| - 1].observed == Settled(h) ==> c.candidate.NoState? && c.count == 0 && c.since == 0)
    && (h != [] && h[|h| - 1].observed != Settled(h) ==>
          c.candidate == h[|h| - 1].observed && c.count == Trailing(h) && c.since == h[|h| - Trailing(h)].now)
  }

  /** `Trailing` counts equal observations at the end, and no longer run of them exists. */
  lemma {:induction false} TrailingIsLongestRun(h: seq<Sample>)
    requires h != []
    ensures forall i :: |h| - Trailing(h) <= i < |h| ==>
              h[i].observed == h[|h| - 1].observed && h[i].place == h[|h| - 1].place
    ensures Trailing(h) < |h| ==>
              var other := h[|h| - Trailing(h) - 1];
              other.observed != h[|h| - 1].observed || other.place != h[|h| - 1].place
  {
    var front := h[..|h| - 1];
    if front != [] {
      TrailingIsLongestRun(front);
      assert forall i :: 0 <= i < |front| ==> front[i] == h[i];
    }
  }

  lemma {:induction false} ConfirmAgrees(c: Carried, h: seq<Sample>)
    requires h != [] && History(h) && Agrees(c, h[..|h| - 1])
    ensures var r := ConfirmState(if Moved(h) then Dropped(c) else c, h[|h| - 1].observed, h[|h| - 1].now);
            && r.Success? && Agrees(r.value.carried, h)
            && (r.value.changed <==> h[|h| - 1].observed != c.confirmed && Convincing(c.confirmed, h))
            && r.value.carried.confirmed == (if r.value.changed then h[|h| - 1].observed else c.confirmed)
  {
    SettledIsState(h[..|h| - 1]);
    TrailingStep(h);
    hide Trailing;
  }

  /** Confirming is refused exactly for an observation or a stored state that is none of the three, and why. */
  lemma {:induction false} RefusedIff(c: Carried, observed: NetworkState, now: int)
    ensures var r := ConfirmState(c, observed, now);
            var observable := observed.Normal? || observed.Allowlist? || observed.Offline?;
            && (r.Failure? <==> !observable || c.confirmed.OtherState?)
            && (r.Failure? ==>
                  r.error == if !observable then "invalid_connectivity_observation"
                             else "invalid_confirmed_connectivity_state")
  {
  }

  /** The last observation continues the run before it, or starts a new one. */
  lemma {:induction false} TrailingStep(h: seq<Sample>)
    requires h != []
    ensures var front, last := h[..|h| - 1], h[|h| - 1];
            if front != [] && front[|front| - 1].observed == last.observed && !Moved(h)
            then Trailing(h) == Trailing(front) + 1 && h[|h| - Trailing(h)] == front[|front| - Trailing(front)]
            else Trailing(h) == 1
  {
  }

  lemma {:induction false} SettledIsState(h: seq<Sample>)
    ensures Settled(h).Unknown? || ValidObserved(Settled(h))
  {
    if h != [] {
      SettledIsState(h[..|h| - 1]);
    }
  }

  /** The carried fields are the ones the history defines. */
  lemma {:induction false} MonitorRefinesHistory(h: seq<Sample>)
    requires History(h)
    ensures Agrees(CarriedAfter(h), h)
  {
    if h != [] {
      MonitorRefinesHistory(h[..|h| - 1]);
      ConfirmAgrees(CarriedAfter(h[..|h| - 1]), h);
    }
  }

  /** A change is reported exactly when the observation differs from the settled state and the
      trailing run is convincing: normal at once, allowlist after three over 20 seconds, offline
      after three (two if nothing was known). */
  lemma {:induction false} ChangesExactlyWhenConvincing(h: seq<Sample>)
    requires History(h) && h != []
    ensures var front, last := h[..|h| - 1], h[|h| - 1];
            var before := CarriedAfter(front);
            var r := ConfirmState(if Moved(h) then Dropped(before) else before, last.observed, last.now);
            && r.Success?
            && (r.value.changed <==> last.observed != Settled(front) && Convincing(Settled(front), h))
            && (r.value.changed ==> r.value.carried.confirmed == last.observed)
  {
    MonitorRefinesHistory(h[..|h| - 1]);
    ConfirmAgrees(CarriedAfter(h[..|h| - 1]), h);
  }
}
