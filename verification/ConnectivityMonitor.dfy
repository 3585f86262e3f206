/** The monitor around the confirmation: runs do not survive a change of the physical network. */
module ConnectivityMonitor {
  import opened Wrappers
  import opened Connectivity
  import opened Seqs

  datatype Interface = Interface(name: string, inetAddresses: seq<string>, gateways: seq<Option<string>>)

  type Topology = seq<Interface>

  /** What is stored between cycles; times are seconds. */
  datatype Snapshot = Snapshot(
    carried: Carried, observedState: NetworkState, changed: bool, updatedAt: int, attemptedAt: int, confirmedAt: int,
    place: Place, error: string)

  const NOWHERE := Place("", "")

  const INITIAL := Snapshot(START, NoState, false, 0, 0, 0, NOWHERE, "")

  /** One cycle of the monitor: it fails before confirming, or it observes. `ms` is the clock of the
      confirmation, `now` the one of the snapshot. */
  datatype Cycle =
    | Errored(code: string, now: int)
    | Observed(interfaceName: string, topology: Option<Topology>, probes: ProbeResults, ms: int, now: int)

  function FirstGateway(gateways: seq<Option<string>>): string {
    if gateways == [] then "" else if gateways[0].Some? then gateways[0].value else FirstGateway(gateways[1..])
  }

  /** Name, first IPv4 address and first gateway of the interface; only the name if it is not listed. */
  function Fingerprint(topology: Topology, name: string): string {
    if topology == [] then name
    else if topology[0].name == name then
      name + "|" + (if topology[0].inetAddresses == [] then "" else topology[0].inetAddresses[0])
      + "|" + FirstGateway(topology[0].gateways)
    else Fingerprint(topology[1..], name)
  }

  method DirectNetworkFingerprint(topology: Topology, name: string) returns (id: string)
    ensures id == Fingerprint(topology, name)
  {
    for i := 0 to |topology|
      invariant Fingerprint(topology, name) == Fingerprint(topology[i..], name)
    {
      var iface := topology[i];
      assert topology[i..][1..] == topology[i + 1..];
      if iface.name != name {
        continue;
      }
      var address, gateway := "", "";
      if |iface.inetAddresses| > 0 {
        address := iface.inetAddresses[0];
      }
      for k := 0 to |iface.gateways|
        invariant gateway == "" && FirstGateway(iface.gateways) == FirstGateway(iface.gateways[k..])
      {
        if iface.gateways[k].Some? {
          gateway := iface.gateways[k].value;
          break;
        }
        assert iface.gateways[k..][1..] == iface.gateways[k + 1..];
      }
      return name + "|" + address + "|" + gateway;
    }
    return name;
  }

  function NetworkId(previous: Snapshot, c: Cycle): string
    requires c.Observed?
  {
    if c.topology.Some? then Fingerprint(c.topology.value, c.interfaceName)
    else if previous.place.network != "" then previous.place.network
    else c.interfaceName
  }

  /** The candidate is dropped when the interface or a known network changed. */
  function Carry(previous: Snapshot, c: Cycle): Carried
    requires c.Observed?
  {
    if previous.place.interfaceName != c.interfaceName
       || (previous.place.network != "" && previous.place.network != NetworkId(previous, c))
    then Dropped(previous.carried) else previous.carried
  }

  function Failed(previous: Snapshot, code: string, now: int): Snapshot {
    previous.(changed := false, attemptedAt := now, error := code)
  }

  function After(previous: Snapshot, c: Cycle): Snapshot {
    if c.Errored? then Failed(previous, c.code, c.now)
    else
      var observed := Classify(c.probes);
      var r := ConfirmState(Carry(previous, c), observed, c.ms);
      if r.Failure? then Failed(previous.(carried := Carry(previous, c)), r.error, c.now)
      else
        Snapshot(r.value.carried, observed, r.value.changed, c.now, c.now,
                 if r.value.changed || previous.confirmedAt == 0 then c.now else previous.confirmedAt,
                 Place(c.interfaceName, NetworkId(previous, c)), "")
  }

  method RunCycle(previous: Snapshot, c: Cycle) returns (snapshot: Snapshot)
    ensures snapshot == After(previous, c)
  {
    snapshot := previous;
    if c.Errored? {
      return snapshot.(changed := false, attemptedAt := c.now, error := c.code);
    }
    var observed := Classify(c.probes);
    var networkId := c.interfaceName;
    if c.topology.Some? {
      networkId := DirectNetworkFingerprint(c.topology.value, c.interfaceName);
    } else if snapshot.place.network != "" {
      networkId := snapshot.place.network;
    }
    if snapshot.place.interfaceName != c.interfaceName
       || (snapshot.place.network != "" && snapshot.place.network != networkId) {
      snapshot := snapshot.(carried := snapshot.carried.(candidate := NoState, count := 0, since := 0));
    }
    var confirmed := Confirm(snapshot.carried, observed, c.ms);
    if confirmed.Failure? {
      return snapshot.(changed := false, attemptedAt := c.now, error := confirmed.error);
    }
    var confirmedAt := snapshot.confirmedAt;
    if confirmed.value.changed || confirmedAt == 0 {
      confirmedAt := c.now;
    }
    snapshot := Snapshot(confirmed.value.carried, observed, confirmed.value.changed, c.now, c.now, confirmedAt,
                         Place(c.interfaceName, networkId), "");
  }

  // ----- Runs and networks

  function Monitor(cycles: seq<Cycle>): Snapshot {
    if cycles == [] then INITIAL else After(Monitor(cycles[..|cycles| - 1]), cycles[|cycles| - 1])
  }

  /** The observations of the cycles that made one, with the network they were made on. */
  function Samples(cycles: seq<Cycle>): seq<Sample> {
    if cycles == [] then []
    else
      var front, c := cycles[..|cycles| - 1], cycles[|cycles| - 1];
      if c.Errored? then Samples(front)
      else Samples(front) + [Sample(Place(c.interfaceName, NetworkId(Monitor(front), c)), Classify(c.probes), c.ms)]
  }

  /** Interfaces have names. */
  ghost predicate Named(cycles: seq<Cycle>) {
    forall c <- cycles :: c.Observed? && c.topology.Some? ==> forall iface <- c.topology.value :: iface.name != ""
  }

  lemma {:induction false} NamelessFingerprint(topology: Topology, name: string)
    requires forall iface <- topology :: iface.name != ""
    ensures Fingerprint(topology, name) == "" <==> name == ""
  {
    if topology != [] {
      NamelessFingerprint(topology[1..], name);
    }
  }

  /** The place on file is that of the last observation. */
  ghost predicate Placed(s: Snapshot, h: seq<Sample>) {
    && s.place == (if h == [] then NOWHERE else h[|h| - 1].place)
    && (s.place.network == "" ==> s.place.interfaceName == "")
    && (s.carried.confirmed.Unknown? || ValidObserved(s.carried.confirmed))
    && (h == [] ==> s.carried == START)
  }

  /** The monitor drops a candidate exactly when the last observation was made on another network. */
  lemma {:induction false} CycleIsPlaced(previous: Snapshot, h: seq<Sample>, c: Cycle)
    requires Placed(previous, h) && c.Observed?
    requires c.topology.Some? ==> forall iface <- c.topology.value :: iface.name != ""
    ensures var longer := h + [Sample(Place(c.interfaceName, NetworkId(previous, c)), Classify(c.probes), c.ms)];
            && Placed(After(previous, c), longer)
            && Carry(previous, c) == (if Moved(longer) then Dropped(previous.carried) else previous.carried)
            && ConfirmState(Carry(previous, c), Classify(c.probes), c.ms).Success?
  {
    if c.topology.Some? {
      NamelessFingerprint(c.topology.value, c.interfaceName);
    }
    assert NetworkId(previous, c) == "" ==> c.interfaceName == "";
  }

  /** The monitor carries what its observations define, whatever the clock does. */
  lemma {:induction false} MonitorFollowsSamples(cycles: seq<Cycle>)
    requires Named(cycles)
    ensures Placed(Monitor(cycles), Samples(cycles)) && Monitor(cycles).carried == CarriedAfter(Samples(cycles))
  {
    if cycles != [] {
      var front, c := cycles[..|cycles| - 1], cycles[|cycles| - 1];
      assert c in cycles && forall d <- front :: d in cycles;
      MonitorFollowsSamples(front);
      if c.Observed? {
        CycleIsPlaced(Monitor(front), Samples(front), c);
        assert Samples(cycles)[..|Samples(front)|] == Samples(front);
      }
    }
  }

  lemma {:induction false} OneMoreCycle(cycles: seq<Cycle>, c: Cycle)
    requires Named(cycles + [c]) && c.Observed?
    ensures var s, front, h := Monitor(cycles), Samples(cycles), Samples(cycles + [c]);
            && h == front + [Sample(Place(c.interfaceName, NetworkId(s, c)), Classify(c.probes), c.ms)]
            && h != [] && h[..|h| - 1] == front
            && s.carried == CarriedAfter(front)
            && Carry(s, c) == (if Moved(h) then Dropped(s.carried) else s.carried)
            && ConfirmState(Carry(s, c), Classify(c.probes), c.ms).Success?
  {
    hide CarriedAfter, NetworkId, ConfirmState, Carry;
    var all := cycles + [c];
    assert all[..|cycles|] == cycles && all[|cycles|] == c;
    assert c in all && forall d <- cycles :: d in all;
    MonitorFollowsSamples(cycles);
    CycleIsPlaced(Monitor(cycles), Samples(cycles), c);
  }

  /** A cycle reports a change exactly when its observation differs from the settled state and the trailing run of
      such observations on this very network is convincing: normal at once, allowlist after three over 20 seconds,
      offline after three (two if nothing was known). */
  lemma {:induction false} MonitorConfirmsExactly(cycles: seq<Cycle>, c: Cycle)
    requires Named(cycles + [c]) && c.Observed? && History(Samples(cycles + [c]))
    ensures var before, h := Settled(Samples(cycles)), Samples(cycles + [c]);
            var after := After(Monitor(cycles), c);
            && h != [] && Monitor(cycles).carried.confirmed == before
            && (after.changed <==> Classify(c.probes) != before && Convincing(before, h))
            && after.carried.confirmed == (if after.changed then Classify(c.probes) else before)
  {
    hide CarriedAfter, Settled, Trailing, Samples, Monitor, Convincing, ConfirmState, Carry, Moved, NetworkId, Classify;
    var h := Samples(cycles + [c]);
    OneMoreCycle(cycles, c);
    MonitorRefinesHistory(h[..|h| - 1]);
    ConfirmAgrees(CarriedAfter(h[..|h| - 1]), h);
  }

  /** How many observations, with this one, argue for the observed state. */
  function RunLength(previous: Snapshot, c: Cycle): int
    requires c.Observed?
  {
    var carried := Carry(previous, c);
    if carried.candidate == Classify(c.probes) && carried.count > 0 then carried.count + 1 else 1
  }

  /** The candidate's observations are the last ones, on the place on file. */
  ghost predicate Traced(carried: Carried, h: seq<Sample>) {
    && 0 <= carried.count <= |h|
    && forall i :: |h| - carried.count <= i < |h| ==>
         h[i].place == h[|h| - 1].place && h[i].observed == carried.candidate
  }

  lemma {:induction false} CandidatesAreTraced(h: seq<Sample>)
    requires forall i :: 0 <= i < |h| ==> ValidObserved(h[i].observed)
    ensures Traced(CarriedAfter(h), h)
    ensures CarriedAfter(h).confirmed.Unknown? || ValidObserved(CarriedAfter(h).confirmed)
  {
    if h != [] {
      var front := h[..|h| - 1];
      CandidatesAreTraced(front);
      var c := CarriedAfter(front);
      if c.count > 0 && !Moved(h) {
        assert front[|front| - 1] == h[|h| - 2] && h[|h| - 2].place == h[|h| - 1].place;
        assert forall i :: |front| - c.count <= i < |front| ==> h[i] == front[i];
      }
    }
  }

  lemma {:induction false} SamplesAreValid(cycles: seq<Cycle>)
    ensures forall i :: 0 <= i < |Samples(cycles)| ==> ValidObserved(Samples(cycles)[i].observed)
  {
    if cycles != [] {
      SamplesAreValid(cycles[..|cycles| - 1]);
    }
  }

  /** Even with a clock that runs back: all observations of a run that confirms a change share one interface, one
      network and the state observed. */
  lemma {:induction false} ConfirmingRunSharesNetwork(cycles: seq<Cycle>, c: Cycle)
    requires Named(cycles + [c]) && c.Observed? && After(Monitor(cycles), c).changed
    ensures var s, h := Monitor(cycles), Samples(cycles + [c]);
            var n := RunLength(s, c);
            && Required(s.carried.confirmed, Classify(c.probes)) <= n <= |h|
            && forall i :: |h| - n <= i < |h| ==>
                 h[i].place == Place(c.interfaceName, NetworkId(s, c)) && h[i].observed == Classify(c.probes)
  {
    hide CarriedAfter, Samples, Monitor, NetworkId, Classify;
    OneMoreCycle(cycles, c);
    SamplesAreValid(cycles);
    CandidatesAreTraced(Samples(cycles));
    var carried, h := CarriedAfter(Samples(cycles)), Samples(cycles + [c]);
    if Moved(h) {
      assert RunLength(Monitor(cycles), c) == 1;
    } else if |Samples(cycles)| > 0 {
      assert Samples(cycles)[|Samples(cycles)| - 1] == h[|h| - 2];
    }
  }

  // ----- The network a fingerprint stands for

  /** What the topology lists for the interface: its first IPv4 address and first gateway, empty if it has none. */
  ghost predicate Attached(topology: Topology, name: string, address: string, gateway: string) {
    exists k :: 0 <= k < |topology| && topology[k].name == name
                && (forall j :: 0 <= j < k ==> topology[j].name != name)
                && address == (if topology[k].inetAddresses == [] then "" else topology[k].inetAddresses[0])
                && IsFirstGateway(topology[k].gateways, gateway)
  }

  ghost predicate IsFirstGateway(gateways: seq<Option<string>>, gateway: string) {
    || (gateway == "" && forall g <- gateways :: g.None?)
    || exists k :: 0 <= k < |gateways| && gateways[k] == Some(gateway) && forall j :: 0 <= j < k ==> gateways[j].None?
  }

  lemma {:induction false} FirstGatewayIs(gateways: seq<Option<string>>, gateway: string)
    requires IsFirstGateway(gateways, gateway)
    ensures FirstGateway(gateways) == gateway
  {
    if gateways != [] && gateways[0].None? {
      assert IsFirstGateway(gateways[1..], gateway) by {
        if k :| 0 <= k < |gateways| && gateways[k] == Some(gateway) && forall j :: 0 <= j < k ==> gateways[j].None? {
          assert gateways[1..][k - 1] == Some(gateway);
          assert forall j :: 0 <= j < k - 1 ==> gateways[1..][j] == gateways[j + 1];
        }
      }
      FirstGatewayIs(gateways[1..], gateway);
    }
  }

  lemma {:induction false} FingerprintOfAttached(topology: Topology, name: string, address: string, gateway: string)
    requires Attached(topology, name, address, gateway)
    ensures Fingerprint(topology, name) == name + "|" + address + "|" + gateway
  {
    var k :| 0 <= k < |topology| && topology[k].name == name && (forall j :: 0 <= j < k ==> topology[j].name != name)
             && address == (if topology[k].inetAddresses == [] then "" else topology[k].inetAddresses[0])
             && IsFirstGateway(topology[k].gateways, gateway);
    if k == 0 {
      FirstGatewayIs(topology[0].gateways, gateway);
    } else {
      assert topology[1..][k - 1] == topology[k];
      assert forall j :: 0 <= j < k - 1 ==> topology[1..][j] == topology[j + 1];
      FingerprintOfAttached(topology[1..], name, address, gateway);
    }
  }

  lemma {:induction false} SplitAtBar(a: string, b: string, c: string, d: string)
    requires '|' !in a && '|' !in c && a + "|" + b == c + "|" + d
    ensures a == c && b == d
  {
    var s := a + "|" + b;
    FirstIs(s, '|', |a|);
    FirstIs(s, '|', |c|);
    assert a == s[..|a|] == c && b == s[|a| + 1..] == d;
  }

  /** On one interface two fingerprints are the same exactly if its first address and its first gateway are: a new
      address or gateway is a new network. */
  lemma {:induction false} FingerprintTells(t: Topology, u: Topology, name: string, a: string, g: string, b: string,
          h: string)
    requires Attached(t, name, a, g) && Attached(u, name, b, h) && '|' !in a && '|' !in b
    ensures Fingerprint(t, name) == Fingerprint(u, name) <==> a == b && g == h
  {
    hide Attached;
    FingerprintOfAttached(t, name, a, g);
    FingerprintOfAttached(u, name, b, h);
    var prefix := name + "|";
    if Fingerprint(t, name) == Fingerprint(u, name) {
      assert name + "|" + a + "|" + g == prefix + (a + "|" + g) && name + "|" + b + "|" + h == prefix + (b + "|" + h);
      assert a + "|" + g == (prefix + (a + "|" + g))[|prefix|..] && b + "|" + h == (prefix + (b + "|" + h))[|prefix|..];
      SplitAtBar(a, g, b, h);
    }
  }

  // ----- What a cycle records

  /** A cycle that fails records that it did and keeps everything else; one that observes records its observation and
      its time. */
  lemma {:induction false} CycleRecords(cycles: seq<Cycle>, c: Cycle)
    requires Named(cycles + [c])
    ensures var before, after := Monitor(cycles), After(Monitor(cycles), c);
            && after.attemptedAt == c.now
            && (c.Errored? ==> after == before.(changed := false, attemptedAt := c.now, error := c.code))
            && (c.Observed? ==>
                  && after.observedState == Classify(c.probes) && after.updatedAt == c.now && after.error == ""
                  && after.place.interfaceName == c.interfaceName)
  {
    hide CarriedAfter, NetworkId, ConfirmState, Carry, Classify;
    if c.Observed? {
      OneMoreCycle(cycles, c);
    }
  }

  /** Cycle `j` confirmed a change. */
  predicate ChangedAt(cycles: seq<Cycle>, j: nat)
    requires j < |cycles|
  {
    Monitor(cycles[..j + 1]).changed
  }

  /** The last confirmed change, or the first observation if nothing changed since. */
  ghost predicate IsConfirmation(cycles: seq<Cycle>, i: nat) {
    && i < |cycles| && cycles[i].Observed?
    && (ChangedAt(cycles, i) || forall j :: 0 <= j < i ==> cycles[j].Errored?)
    && (forall j :: i < j < |cycles| && cycles[j].Observed? ==> !ChangedAt(cycles, j))
  }

  /** The time on file is that of this one. */
  lemma {:induction false} ConfirmedAtIs(cycles: seq<Cycle>) returns (i: nat)
    requires Named(cycles) && (forall c <- cycles :: c.now > 0) && exists c <- cycles :: c.Observed?
    ensures IsConfirmation(cycles, i) && Monitor(cycles).confirmedAt == cycles[i].now > 0
  {
    var n := |cycles| - 1;
    var front, c := cycles[..n], cycles[n];
    assert cycles == front + [c];
    assert Named(front) && forall d <- front :: d.now > 0 by {
      assert forall d <- front :: d in cycles;
    }
    ConfirmedAtStep(front, c);
    NothingObserved(front);
    hide Monitor, Named, IsConfirmation;
    if exists d <- front :: d.Observed? {
      i := ConfirmedAtIs(front);
      if c.Observed? && Monitor(cycles).changed {
        i := n;
        NewConfirmation(front, c);
      } else {
        OldConfirmation(front, c, i);
      }
    } else {
      i := n;
      NewConfirmation(front, c);
    }
  }

  lemma {:induction false} ChangedSame(front: seq<Cycle>, c: Cycle, j: nat)
    requires j <= |front|
    ensures j < |front| ==> ChangedAt(front + [c], j) == ChangedAt(front, j)
    ensures j == |front| ==> ChangedAt(front + [c], j) == Monitor(front + [c]).changed
  {
    hide Monitor, After;
    if j < |front| {
      assert (front + [c])[..j + 1] == front[..j + 1];
    } else {
      assert (front + [c])[..j + 1] == front + [c];
    }
  }

  lemma {:induction false} OldConfirmation(front: seq<Cycle>, c: Cycle, i: nat)
    requires IsConfirmation(front, i) && (c.Observed? ==> !Monitor(front + [c]).changed)
    ensures IsConfirmation(front + [c], i) && (front + [c])[i] == front[i]
  {
    hide Monitor, After, ChangedAt;
    forall j: nat | j <= |front|
      ensures j < |front| ==> ChangedAt(front + [c], j) == ChangedAt(front, j)
      ensures j == |front| ==> ChangedAt(front + [c], j) == Monitor(front + [c]).changed
    {
      ChangedSame(front, c, j);
    }
  }

  lemma {:induction false} NewConfirmation(front: seq<Cycle>, c: Cycle)
    requires c.Observed? && (Monitor(front + [c]).changed || forall d <- front :: !d.Observed?)
    ensures IsConfirmation(front + [c], |front|)
  {
    var cycles := front + [c];
    assert cycles[..|front| + 1] == cycles;
    assert forall j :: 0 <= j < |front| ==> cycles[j] in front;
  }

  lemma {:induction false} ConfirmedAtStep(front: seq<Cycle>, c: Cycle)
    requires Named(front + [c])
    ensures var before, after := Monitor(front), Monitor(front + [c]);
            after.confirmedAt ==
            if c.Observed? && (after.changed || before.confirmedAt == 0) then c.now else before.confirmedAt
  {
    assert Monitor(front + [c]) == After(Monitor(front), c) by {
      assert (front + [c])[..|front|] == front;
    }
    hide Monitor, Carry, ConfirmState, Classify, NetworkId, CarriedAfter, Samples, Moved;
    if c.Observed? {
      OneMoreCycle(front, c);
    }
  }

  lemma {:induction false} NothingObserved(cycles: seq<Cycle>)
    ensures (forall c <- cycles :: c.Errored?) ==> Monitor(cycles).confirmedAt == 0
  {
    if cycles != [] {
      var n := |cycles| - 1;
      assert cycles == cycles[..n] + [cycles[n]];
      NothingObserved(cycles[..n]);
      assert cycles[n] in cycles;
    }
  }
}
