/** What a live chain decides, from the order in which the rules stand in it. */
module LiveRules {
  import opened Wrappers
  import opened Seqs
  import opened Powers
  import opened Cidr
  import opened LanPolicy
  import opened LanIsolation
  import opened RuleChain
  import opened RuleOrder

  // ----- Order and verdict

  lemma {:induction false} FirstMatchAt(chain: seq<FirewallRule>, p: Packet) returns (f: nat)
    requires FirstMatch(chain, p).Some?
    ensures f < |chain| && RuleMatches(chain[f], p) && FirstMatch(chain, p) == Some(chain[f].accept)
    ensures forall i :: 0 <= i < f ==> !RuleMatches(chain[i], p)
    ensures First(chain, chain[f]) == f
  {
    if RuleMatches(chain[0], p) {
      f := 0;
    } else {
      var g := FirstMatchAt(chain[1..], p);
      f := g + 1;
      assert forall i :: 1 <= i < f ==> chain[i] == chain[1..][i - 1];
    }
    FirstIs(chain, chain[f], f);
  }

  lemma {:induction false} SomeMatch(chain: seq<FirewallRule>, p: Packet)
    ensures FirstMatch(chain, p).Some? <==> exists r <- chain :: RuleMatches(r, p)
  {
    if chain != [] {
      assert chain == [chain[0]] + chain[1..];
      SomeMatch(chain[1..], p);
    }
  }

  /** Rules that both match the packet and disagree about it stand in list order. */
  ghost predicate Ordered(live: seq<FirewallRule>, rules: seq<FirewallRule>, p: Packet) {
    forall i, j :: 0 <= i < j < |rules| && RuleMatches(rules[i], p) && RuleMatches(rules[j], p)
        && rules[i].accept != rules[j].accept
      ==> First(live, rules[i]) < First(live, rules[j])
  }

  /** A rule of the chain that is not in the list and matches the packet stands behind one that is and does. */
  ghost predicate Foremost(live: seq<FirewallRule>, rules: seq<FirewallRule>, p: Packet) {
    forall x <- live :: RuleMatches(x, p) && x !in rules ==>
      exists r <- rules :: r in live && RuleMatches(r, p) && First(live, r) < First(live, x)
  }

  /** Then the chain decides the packet as the list does. */
  lemma {:induction false} SameVerdict(live: seq<FirewallRule>, rules: seq<FirewallRule>, p: Packet)
    requires (forall r <- rules :: r in live) && FirstMatch(rules, p).Some?
    requires Ordered(live, rules, p) && Foremost(live, rules, p)
    ensures FirstMatch(live, p) == FirstMatch(rules, p)
  {
    hide RuleMatches;
    var i := FirstMatchAt(rules, p);
    SomeMatch(live, p);
    assert rules[i] in rules;
    var f := FirstMatchAt(live, p);
    var x := live[f];
    assert forall r <- live :: RuleMatches(r, p) ==> First(live, r) >= f;
    assert x in rules;
    var j :| 0 <= j < |rules| && rules[j] == x;
  }

  /** Distinct rules that fill the first places leave no room for others there. */
  lemma {:induction false} OthersBehind(live: seq<FirewallRule>, rules: seq<FirewallRule>, b: nat, x: FirewallRule)
    requires NoRepeats(rules) && b <= |rules| && x !in rules[..b] && x in live
    requires forall i :: 0 <= i < b ==> rules[i] in live && First(live, rules[i]) < b
    ensures First(live, x) >= b
  {
    if First(live, x) < b {
      var head, many := if b < |live| then live[..b] else live, rules[..b] + [x];
      forall r | r in many
        ensures r in head
      {
        if r == x {
          assert head[First(live, x)] == x;
        } else {
          var i :| 0 <= i < b && rules[i] == r;
          assert head[First(live, rules[i])] == r;
        }
      }
      DistinctMembers(many, head);
    }
  }

  // ----- Rules that disagree

  /** Some packet from the tunnel may concern both rules: no two sources, no two private networks. */
  predicate Meet(a: FirewallRule, b: FirewallRule) {
    && (a.source.None? || b.source.None? || a.source == b.source)
    && (a.destination.None? || b.destination.None? || a.destination == b.destination)
  }

  predicate Disagree(a: FirewallRule, b: FirewallRule) {
    a.accept != b.accept && Meet(a, b)
  }

  /** The private networks are apart, and not everything is private. */
  lemma {:induction false} PrivateApart()
    ensures forall q, r, a :: q in PRIVATE_IPV4 && r in PRIVATE_IPV4 && q.Contains(a) && r.Contains(a) ==> q == r
    ensures forall q <- PRIVATE_IPV4 :: q.Contains(q.address) && !q.Contains(V4(8, 8, 8, 8))
  {
    assert Pow2(4) == 16 && Pow2(8) == 256 && Pow2(12) == 4096 && Pow2(16) == 65_536 && Pow2(20) == 1_048_576;
    assert Pow2(22) == 4_194_304 && Pow2(24) == 16_777_216;
  }

  ghost predicate OnPrivate(r: FirewallRule) {
    r.destination.Some? ==> r.destination.value in PRIVATE_IPV4
  }

  lemma {:induction false} MatchingMeet(a: FirewallRule, b: FirewallRule, p: Packet)
    requires OnPrivate(a) && OnPrivate(b) && RuleMatches(a, p) && RuleMatches(b, p)
    ensures Meet(a, b)
  {
    PrivateApart();
    hide PRIVATE_IPV4, Prefix.Contains;
  }

  /** The first `n` rules are at the head of the chain, as far as it has them, and those that disagree have their places
      in list order. */
  ghost predicate KeptInFront(chain: seq<FirewallRule>, rules: seq<FirewallRule>, n: nat)
    requires n <= |rules|
  {
    && Stacked(chain, rules, n)
    && forall i, j :: 0 <= i < j < n && Disagree(rules[i], rules[j]) ==> KeepsOrder(chain, rules, i, j)
  }

  /** Then a packet that one of them matches is decided as by the list, whatever else the chain holds. */
  lemma {:induction false} FrontDecides(chain: seq<FirewallRule>, rules: seq<FirewallRule>, n: nat, p: Packet)
    requires NoRepeats(rules) && n <= |rules| <= n + 1 && KeptInFront(chain, rules, n)
    requires (forall i :: 0 <= i < n ==> OnPrivate(rules[i])) && exists i :: 0 <= i < n && RuleMatches(rules[i], p)
    ensures FirstMatch(InsertAll(chain, rules).chain, p) == FirstMatch(rules, p)
  {
    hide RuleMatches, FirstMatch, Stacked, InsertAll, First, NoRepeats, KeepsOrder, Meet, OnPrivate;
    var live := InsertAll(chain, rules).chain;
    LiveRulesIn(chain, rules);
    FirstPlacesIff(chain, rules, n);
    SomeMatch(rules, p);
    forall i, j | 0 <= i < j < |rules| && RuleMatches(rules[i], p) && RuleMatches(rules[j], p)
                  && rules[i].accept != rules[j].accept
      ensures First(live, rules[i]) < First(live, rules[j])
    {
      if j < n {
        MatchingMeet(rules[i], rules[j], p);
        OrderIff(chain, rules, i, j);
      } else {
        NotInFront(rules, n, j);
        OthersBehind(live, rules, n, rules[j]);
      }
    }
    var i: nat :| i < n && RuleMatches(rules[i], p);
    forall x | x in live && RuleMatches(x, p) && x !in rules
      ensures rules[i] in rules && First(live, rules[i]) < First(live, x)
    {
      OthersBehind(live, rules, n, x);
    }
    SameVerdict(live, rules, p);
  }

  lemma {:induction false} LiveRulesIn(chain: seq<FirewallRule>, rules: seq<FirewallRule>)
    requires NoRepeats(rules)
    ensures forall r <- rules :: r in InsertAll(chain, rules).chain
  {
    OwnedAreMissing(chain, rules);
  }

  lemma {:induction false} NotInFront(rules: seq<FirewallRule>, b: nat, j: nat)
    requires NoRepeats(rules) && b <= j < |rules|
    ensures rules[j] !in rules[..b]
  {
  }

  // ----- The forward rules

  /** How many rules stand before the tunnel's accept: isolation, overrides and global drops. */
  function AcceptIndex(tunnel: string, allowLan: bool, peers: seq<Client<nat>>): (k: nat)
    ensures k + 2 == |ForwardRules(true, tunnel, allowLan, peers)|
    ensures ForwardRules(true, tunnel, allowLan, peers)[k] == Accepts(tunnel)[0]
  {
    1 + |ClientRules(true, tunnel, allowLan, peers)| + |GlobalRules(tunnel, allowLan)|
  }

  /** Whether tunnel traffic may pass. */
  function Policy(tunnel: string, allowLan: bool, peers: seq<Client<nat>>, p: Packet): bool {
    p.outInterface != tunnel && Reaches(SettingOf(peers, p.source), allowLan, InSome(PRIVATE_IPV4, 32, p.destination))
  }

  /** A rule about a private network, of one peer if `own`, but never of the `stranger`. */
  predicate Private(r: FirewallRule, tunnel: string, own: bool, accept: bool, stranger: nat) {
    && r.destination.Some? && r.destination.value in PRIVATE_IPV4
    && (r.source.Some? <==> own) && r.source != Some(stranger)
    && r == FirewallRule(Some(tunnel), None, r.source, r.destination, false, accept)
  }

  /** Isolation, overrides up to `e`, global drops up to `k`, and the two accepts. */
  ghost predicate Shaped(rules: seq<FirewallRule>, tunnel: string, allowLan: bool, e: nat, k: nat, stranger: nat) {
    && 1 <= e <= k && |rules| == k + 2 && NoRepeats(rules) && (allowLan ==> e == k)
    && rules[0] == Isolation(tunnel) && rules[k] == Accepts(tunnel)[0] && rules[k + 1] == Accepts(tunnel)[1]
    && (forall i :: 0 < i < e ==> Private(rules[i], tunnel, true, !allowLan, stranger))
    && (forall i :: e <= i < k ==> Private(rules[i], tunnel, false, false, stranger))
  }

  lemma {:induction false} PrivateRuleShape(tunnel: string, source: Option<nat>, accept: bool, stranger: nat)
    requires source != Some(stranger)
    ensures forall r <- PrivateRules(tunnel, source, PRIVATE_IPV4, accept) ::
              Private(r, tunnel, source.Some?, accept, stranger)
  {
  }

  lemma {:induction false} ClientRuleShape(tunnel: string, allowLan: bool, peers: seq<Client<nat>>, stranger: nat)
    requires forall c <- peers :: c.id != stranger
    ensures forall r <- ClientRules(true, tunnel, allowLan, peers) :: Private(r, tunnel, true, !allowLan, stranger)
  {
    hide PRIVATE_IPV4, Private;
    if peers != [] {
      var front, c := peers[..|peers| - 1], peers[|peers| - 1];
      assert peers == front + [c];
      ClientRuleShape(tunnel, allowLan, front, stranger);
      if Overrides(true, allowLan, c) {
        PrivateRuleShape(tunnel, Some(c.id), c.allowLan.value, stranger);
      }
    }
  }

  lemma {:induction false} Stranger(peers: seq<Client<nat>>) returns (s: nat)
    ensures forall c <- peers :: c.id < s
  {
    s := 0;
    for i := 0 to |peers|
      invariant forall j :: 0 <= j < i ==> peers[j].id < s
    {
      s := if peers[i].id < s then s else peers[i].id + 1;
    }
  }

  /** The forward rules have this shape. */
  lemma {:induction false} ForwardIsShaped(tunnel: string, allowLan: bool, peers: seq<Client<nat>>)
      returns (e: nat, stranger: nat)
    requires DistinctClients(peers)
    ensures Shaped(ForwardRules(true, tunnel, allowLan, peers), tunnel, allowLan, e,
              AcceptIndex(tunnel, allowLan, peers), stranger)
    ensures peers == [] ==> e == 1
  {
    hide PRIVATE_IPV4, Private, NoRepeats;
    ForwardRulesDistinct(tunnel, allowLan, peers);
    var rules, k := ForwardRules(true, tunnel, allowLan, peers), AcceptIndex(tunnel, allowLan, peers);
    stranger := Stranger(peers);
    ClientRuleShape(tunnel, allowLan, peers, stranger);
    PrivateRuleShape(tunnel, None, false, stranger);
    var clients, globals := ClientRules(true, tunnel, allowLan, peers), GlobalRules(tunnel, allowLan);
    e := 1 + |clients|;
    assert forall i :: 0 < i < e ==> rules[i] == clients[i - 1] && rules[i] in clients;
    assert forall i :: e <= i < k ==> rules[i] == globals[i - e] && rules[i] in globals;
  }

  // ----- The forward chain

  /** Whatever a chain holds, as long as the rules found in it were at its head and those that disagree in list order:
      after a start traffic from the tunnel is decided by the policy, a second start changes nothing, and closing
      leaves the chain as it was. */
  lemma {:induction false} LiveChainImplementsPolicy(tunnel: string, allowLan: bool, peers: seq<Client<nat>>,
          chain: seq<FirewallRule>, p: Packet)
    requires DistinctClients(peers) && p.inInterface == tunnel
    requires KeptInFront(chain, ForwardRules(true, tunnel, allowLan, peers), AcceptIndex(tunnel, allowLan, peers) + 1)
    ensures var rules := ForwardRules(true, tunnel, allowLan, peers);
            var live := InsertAll(chain, rules);
            && !live.failed
            && FirstMatch(live.chain, p) == Some(Policy(tunnel, allowLan, peers, p))
            && InsertAll(live.chain, rules) == Progress(live.chain, [], false)
            && DeleteAll(live.chain, live.owned) == chain
  {
    hide FirstMatch, KeptInFront, InsertAll, ForwardRules, Policy, NoRepeats, OnPrivate, RuleMatches, ClientRules,
      GlobalRules, DeleteAll;
    var rules, k := ForwardRules(true, tunnel, allowLan, peers), AcceptIndex(tunnel, allowLan, peers);
    ForwardRulesDistinct(tunnel, allowLan, peers);
    RulesOnPrivate(tunnel, allowLan, peers);
    ForwardVerdict(tunnel, allowLan, peers, p);
    DistinctRulesNeverFail(chain, rules);
    RestartChangesNothing(chain, rules);
    CloseRestoresChain(chain, rules);
    AcceptMatches(tunnel, allowLan, peers, p);
    FrontDecides(chain, rules, k + 1, p);
  }

  lemma {:induction false} AcceptMatches(tunnel: string, allowLan: bool, peers: seq<Client<nat>>, p: Packet)
    requires p.inInterface == tunnel
    ensures RuleMatches(ForwardRules(true, tunnel, allowLan, peers)[AcceptIndex(tunnel, allowLan, peers)], p)
  {
  }

  lemma {:induction false} RulesOnPrivate(tunnel: string, allowLan: bool, peers: seq<Client<nat>>)
    requires DistinctClients(peers)
    ensures forall i :: 0 <= i <= AcceptIndex(tunnel, allowLan, peers) ==>
              OnPrivate(ForwardRules(true, tunnel, allowLan, peers)[i])
  {
    var e, stranger := ForwardIsShaped(tunnel, allowLan, peers);
    hide ForwardRules, AcceptIndex, PRIVATE_IPV4, NoRepeats;
  }

  lemma {:induction false} ForwardVerdict(tunnel: string, allowLan: bool, peers: seq<Client<nat>>, p: Packet)
    requires DistinctClients(peers) && p.inInterface == tunnel
    ensures FirstMatch(ForwardRules(true, tunnel, allowLan, peers), p) == Some(Policy(tunnel, allowLan, peers, p))
  {
    hide PRIVATE_IPV4, ForwardRules, InSome, SettingOf;
    ForwardImplementsPolicy(true, tunnel, allowLan, peers, p);
  }

  // ----- The accept

  /** Isolation, overrides and LAN block all stand before the tunnel's accept after a start exactly if those the chain
      had stood before the accept's place in it: where it stood, or, if it was missing, behind as many rules as the
      chain had of them. */
  lemma {:induction false} AcceptComesLastIff(tunnel: string, allowLan: bool, peers: seq<Client<nat>>,
          chain: seq<FirewallRule>)
    requires DistinctClients(peers)
    ensures var rules, k := ForwardRules(true, tunnel, allowLan, peers), AcceptIndex(tunnel, allowLan, peers);
            Ahead(InsertAll(chain, rules).chain, rules, k) <==> Before(chain, rules, k, PlaceOf(chain, rules, k))
  {
    ForwardRulesDistinct(tunnel, allowLan, peers);
    AheadIff(chain, ForwardRules(true, tunnel, allowLan, peers), AcceptIndex(tunnel, allowLan, peers));
  }

  // ----- Exactly when new traffic is decided by the policy

  /** A new packet from the tunnel. */
  predicate NewFrom(tunnel: string, p: Packet) {
    p.inInterface == tunnel && !p.established
  }

  /** The other rules of the chain do not touch new traffic from the tunnel. */
  ghost predicate Elsewhere(tunnel: string, chain: seq<FirewallRule>, rules: seq<FirewallRule>) {
    forall x, p :: x in chain && x !in rules && NewFrom(tunnel, p) ==> !RuleMatches(x, p)
  }

  // ----- Packets that tell the rules apart

  /** Every drop has a new packet of its own, apart from the accept. */
  lemma {:induction false} OwnPacket(rules: seq<FirewallRule>, tunnel: string, allowLan: bool, e: nat, k: nat,
          stranger: nat, i: nat) returns (p: Packet)
    requires Shaped(rules, tunnel, allowLan, e, k, stranger) && i < k && !rules[i].accept
    ensures NewFrom(tunnel, p) && forall j :: 0 <= j < |rules| ==> (RuleMatches(rules[j], p) <==> j == i || j == k)
  {
    PrivateApart();
    hide PRIVATE_IPV4, Prefix.Contains;
    if i == 0 {
      p := Packet(tunnel, tunnel, stranger, V4(8, 8, 8, 8), false);
    } else {
      var source, q := rules[i].source, rules[i].destination.value;
      p := Packet(tunnel, tunnel + "x", if source.Some? then source.value else stranger, q.address, false);
      assert |p.outInterface| != |tunnel|;
      assert forall j :: 0 < j < k && RuleMatches(rules[j], p) ==> rules[j] == rules[i];
    }
  }

  /** An override that lets through has a new packet that concerns no other one, back into the tunnel or not. */
  lemma {:induction false} OverridePacket(rules: seq<FirewallRule>, tunnel: string, e: nat, k: nat, stranger: nat,
          i: nat, back: bool) returns (p: Packet)
    requires Shaped(rules, tunnel, false, e, k, stranger) && 0 < i < e
    ensures NewFrom(tunnel, p) && (forall j :: 0 <= j < |rules| ==>
              (RuleMatches(rules[j], p) <==>
               (j == 0 && back) || j == i || j == k || (e <= j < k && rules[j].destination == rules[i].destination)))
  {
    PrivateApart();
    hide PRIVATE_IPV4, Prefix.Contains;
    var source, q := rules[i].source, rules[i].destination.value;
    p := Packet(tunnel, if back then tunnel else tunnel + "x", source.value, q.address, false);
    assert !back ==> |p.outInterface| != |tunnel|;
    assert forall j :: 0 < j < e && RuleMatches(rules[j], p) ==> rules[j] == rules[i];
  }

  // ----- The order that decides

  /** The live chain holds the rules, and no other one touches new traffic from the tunnel. */
  ghost predicate Holds(live: seq<FirewallRule>, rules: seq<FirewallRule>, tunnel: string) {
    && (forall r <- rules :: r in live)
    && Elsewhere(tunnel, live, rules)
  }

  lemma {:induction false} LiveHolds(chain: seq<FirewallRule>, rules: seq<FirewallRule>, tunnel: string)
    requires NoRepeats(rules) && Elsewhere(tunnel, chain, rules)
    ensures Holds(InsertAll(chain, rules).chain, rules, tunnel)
  {
    hide RuleMatches;
    OwnedAreMissing(chain, rules);
  }

  /** A new packet gets the verdict of the matching rule that comes first. */
  lemma {:induction false} LiveVerdict(live: seq<FirewallRule>, rules: seq<FirewallRule>, tunnel: string, p: Packet,
          m: nat) returns (j: nat)
    requires Holds(live, rules, tunnel) && NewFrom(tunnel, p) && m < |rules| && RuleMatches(rules[m], p)
    ensures j < |rules| && RuleMatches(rules[j], p) && FirstMatch(live, p) == Some(rules[j].accept)
    ensures forall i :: 0 <= i < |rules| && RuleMatches(rules[i], p) ==> First(live, rules[j]) <= First(live, rules[i])
  {
    hide RuleMatches;
    assert rules[m] in rules;
    SomeMatch(live, p);
    var f := FirstMatchAt(live, p);
    assert live[f] in live;
    j :| 0 <= j < |rules| && rules[j] == live[f];
    assert forall i :: 0 <= i < |rules| ==> rules[i] in rules;
  }

  /** The list itself gives the verdict of the first matching rule. */
  lemma {:induction false} ListVerdict(rules: seq<FirewallRule>, p: Packet, i: nat)
    requires i < |rules| && RuleMatches(rules[i], p) && forall j :: 0 <= j < i ==> !RuleMatches(rules[j], p)
    ensures FirstMatch(rules, p) == Some(rules[i].accept)
  {
    hide RuleMatches;
    SomeMatch(rules, p);
    assert rules[i] in rules;
    var f := FirstMatchAt(rules, p);
  }

  /** The chain decides new traffic as the list does. */
  ghost predicate Decides(live: seq<FirewallRule>, rules: seq<FirewallRule>, tunnel: string) {
    forall p :: NewFrom(tunnel, p) ==> FirstMatch(live, p) == FirstMatch(rules, p)
  }

  predicate InOrder(live: seq<FirewallRule>, rules: seq<FirewallRule>, i: nat, j: nat)
    requires i < |rules| && j < |rules|
  {
    First(live, rules[i]) < First(live, rules[j])
  }

  /** A drop's own packet is let through exactly if the drop does not stand before the accept. */
  lemma {:induction false} DropVerdict(live: seq<FirewallRule>, rules: seq<FirewallRule>, tunnel: string,
          allowLan: bool, e: nat, k: nat, stranger: nat, i: nat) returns (p: Packet)
    requires Shaped(rules, tunnel, allowLan, e, k, stranger) && Holds(live, rules, tunnel) && i < k && !rules[i].accept
    ensures NewFrom(tunnel, p) && FirstMatch(rules, p) == Some(false)
    ensures FirstMatch(live, p) == Some(!InOrder(live, rules, i, k))
  {
    p := OwnPacket(rules, tunnel, allowLan, e, k, stranger, i);
    hide RuleMatches, Private, NoRepeats;
    ListVerdict(rules, p, i);
    DifferentPlaces(live, rules, i, k);
    var j := LiveVerdict(live, rules, tunnel, p, i);
  }

  lemma {:induction false} DifferentPlaces(live: seq<FirewallRule>, rules: seq<FirewallRule>, i: nat, j: nat)
    requires i < |rules| && j < |rules| && rules[i] in live && rules[j] in live && rules[i] != rules[j]
    ensures First(live, rules[i]) != First(live, rules[j])
  {
  }

  /** With the drops before the accept, what overrides let through shows that they stand before the global drops. */
  lemma {:induction false} OverrideBeforeDrop(live: seq<FirewallRule>, rules: seq<FirewallRule>, tunnel: string, e: nat,
          k: nat, stranger: nat, i: nat, j: nat)
    requires Shaped(rules, tunnel, false, e, k, stranger) && Holds(live, rules, tunnel) && Decides(live, rules, tunnel)
    requires 0 < i < e <= j < k && rules[i].destination == rules[j].destination && InOrder(live, rules, j, k)
    ensures InOrder(live, rules, i, j)
  {
    var p := OverridePacket(rules, tunnel, e, k, stranger, i, false);
    hide RuleMatches, NoRepeats;
    ListVerdict(rules, p, i);
    var m := LiveVerdict(live, rules, tunnel, p, i);
    assert rules[i].accept && !rules[j].accept;
    DifferentPlaces(live, rules, i, j);
  }

  /** And what isolation stops, that it stands before the overrides. */
  lemma {:induction false} IsolationBeforeOverride(live: seq<FirewallRule>, rules: seq<FirewallRule>, tunnel: string,
          e: nat, k: nat, stranger: nat, i: nat)
    requires Shaped(rules, tunnel, false, e, k, stranger) && Holds(live, rules, tunnel) && Decides(live, rules, tunnel)
    requires 0 < i < e
    requires forall j :: e <= j < k && rules[i].destination == rules[j].destination ==> InOrder(live, rules, i, j)
    ensures InOrder(live, rules, 0, i)
  {
    var p := OverridePacket(rules, tunnel, e, k, stranger, i, true);
    hide RuleMatches, NoRepeats;
    ListVerdict(rules, p, 0);
    var m := LiveVerdict(live, rules, tunnel, p, i);
    assert rules[i].accept && !rules[0].accept && rules[k].accept;
    DifferentPlaces(live, rules, 0, i);
  }

  /** Rules up to the accept that disagree stand in list order. */
  ghost predicate AllInOrder(live: seq<FirewallRule>, rules: seq<FirewallRule>, k: nat)
    requires k < |rules|
  {
    forall i, j :: 0 <= i < j <= k && Disagree(rules[i], rules[j]) ==> InOrder(live, rules, i, j)
  }

  lemma {:induction false} DecidesThenOrdered(live: seq<FirewallRule>, rules: seq<FirewallRule>, tunnel: string,
          allowLan: bool, e: nat, k: nat, stranger: nat)
    requires Shaped(rules, tunnel, allowLan, e, k, stranger) && Holds(live, rules, tunnel)
    requires Decides(live, rules, tunnel)
    ensures AllInOrder(live, rules, k)
  {
    hide RuleMatches, Holds, InOrder;
    forall i | 0 <= i < k && !rules[i].accept
      ensures InOrder(live, rules, i, k)
    {
      var p := DropVerdict(live, rules, tunnel, allowLan, e, k, stranger, i);
    }
    forall i, j | 0 < i < e <= j < k && rules[i].destination == rules[j].destination
      ensures InOrder(live, rules, i, j)
    {
      OverrideBeforeDrop(live, rules, tunnel, e, k, stranger, i, j);
    }
    if !allowLan {
      forall i | 0 < i < e
        ensures InOrder(live, rules, 0, i)
      {
        IsolationBeforeOverride(live, rules, tunnel, e, k, stranger, i);
      }
    }
  }

  lemma {:induction false} OrderedThenDecides(live: seq<FirewallRule>, rules: seq<FirewallRule>, tunnel: string,
          allowLan: bool, e: nat, k: nat, stranger: nat, p: Packet)
    requires Shaped(rules, tunnel, allowLan, e, k, stranger) && Holds(live, rules, tunnel)
    requires AllInOrder(live, rules, k) && NewFrom(tunnel, p)
    ensures FirstMatch(live, p) == FirstMatch(rules, p)
  {
    hide PRIVATE_IPV4, Prefix.Contains, NoRepeats, First, Meet;
    assert RuleMatches(rules[k], p) && rules[k] in rules;
    SomeMatch(rules, p);
    forall i, j | 0 <= i < j < |rules| && RuleMatches(rules[i], p) && RuleMatches(rules[j], p)
                  && rules[i].accept != rules[j].accept
      ensures First(live, rules[i]) < First(live, rules[j])
    {
      MatchingMeet(rules[i], rules[j], p);
      assert InOrder(live, rules, i, j);
    }
    SameVerdict(live, rules, p);
  }

  /** Where no other rule touches new traffic from the tunnel: all of it is decided by the policy after a start exactly
      if every two rules that disagree about some of it had their places in list order. */
  lemma {:induction false} NewTrafficDecidedIff(tunnel: string, allowLan: bool, peers: seq<Client<nat>>,
          chain: seq<FirewallRule>)
    requires DistinctClients(peers) && Elsewhere(tunnel, chain, ForwardRules(true, tunnel, allowLan, peers))
    ensures var rules, k := ForwardRules(true, tunnel, allowLan, peers), AcceptIndex(tunnel, allowLan, peers);
            (forall p :: NewFrom(tunnel, p) ==>
                  FirstMatch(InsertAll(chain, rules).chain, p) == Some(Policy(tunnel, allowLan, peers, p)))
            <==> forall i, j :: 0 <= i < j <= k && Disagree(rules[i], rules[j]) ==> KeepsOrder(chain, rules, i, j)
  {
    var rules, k := ForwardRules(true, tunnel, allowLan, peers), AcceptIndex(tunnel, allowLan, peers);
    var e, stranger := ForwardIsShaped(tunnel, allowLan, peers);
    var live := InsertAll(chain, rules).chain;
    ForwardRulesDistinct(tunnel, allowLan, peers);
    hide ForwardRules, AcceptIndex, RuleMatches, FirstMatch, InsertAll, First, Policy, NoRepeats, KeepsOrder, Disagree;
    LiveHolds(chain, rules, tunnel);
    forall p | NewFrom(tunnel, p)
      ensures FirstMatch(rules, p) == Some(Policy(tunnel, allowLan, peers, p))
    {
      ForwardVerdict(tunnel, allowLan, peers, p);
    }
    forall i: nat, j: nat | i < j <= k
      ensures InOrder(live, rules, i, j) <==> KeepsOrder(chain, rules, i, j)
    {
      OrderIff(chain, rules, i, j);
    }
    if Decides(live, rules, tunnel) {
      DecidesThenOrdered(live, rules, tunnel, allowLan, e, k, stranger);
    }
    if AllInOrder(live, rules, k) {
      forall p | NewFrom(tunnel, p)
        ensures FirstMatch(live, p) == FirstMatch(rules, p)
      {
        OrderedThenDecides(live, rules, tunnel, allowLan, e, k, stranger, p);
      }
    }
  }

  /** A drop that does not keep its order to the accept lets a forbidden packet through. */
  lemma {:induction false} MisplacedDropLeaks(tunnel: string, allowLan: bool, peers: seq<Client<nat>>,
          chain: seq<FirewallRule>, i: nat) returns (p: Packet)
    requires DistinctClients(peers) && Elsewhere(tunnel, chain, ForwardRules(true, tunnel, allowLan, peers))
    requires var rules, k := ForwardRules(true, tunnel, allowLan, peers), AcceptIndex(tunnel, allowLan, peers);
             i < k && !rules[i].accept && !KeepsOrder(chain, rules, i, k)
    ensures NewFrom(tunnel, p) && !Policy(tunnel, allowLan, peers, p)
    ensures FirstMatch(InsertAll(chain, ForwardRules(true, tunnel, allowLan, peers)).chain, p) == Some(true)
  {
    var rules, k := ForwardRules(true, tunnel, allowLan, peers), AcceptIndex(tunnel, allowLan, peers);
    var e, stranger := ForwardIsShaped(tunnel, allowLan, peers);
    var live := InsertAll(chain, rules).chain;
    ForwardRulesDistinct(tunnel, allowLan, peers);
    hide ForwardRules, AcceptIndex, RuleMatches, FirstMatch, InsertAll, First, Policy, NoRepeats, KeepsOrder, Shaped;
    LiveHolds(chain, rules, tunnel);
    OrderIff(chain, rules, i, k);
    p := DropVerdict(live, rules, tunnel, allowLan, e, k, stranger, i);
    ForwardVerdict(tunnel, allowLan, peers, p);
  }

  /** Without peers the drops stand behind the isolation rule in the order of the networks. */
  lemma {:induction false} DropPlace(tunnel: string, q: Prefix) returns (i: nat)
    requires q in PRIVATE_IPV4
    ensures var rules, k := ForwardRules(true, tunnel, false, []), AcceptIndex(tunnel, false, []);
            0 < i < k && rules[i] == FirewallRule(Some(tunnel), None, None, Some(q), false, false)
  {
    hide PRIVATE_IPV4;
    var j: nat :| j < |PRIVATE_IPV4| && PRIVATE_IPV4[j] == q;
    i := 1 + j;
    assert ForwardRules(true, tunnel, false, [])[i] == GlobalRules(tunnel, false)[j];
  }

  lemma {:induction false} OnlyOwnDrop(rules: seq<FirewallRule>, tunnel: string, k: nat, stranger: nat, i: nat,
          p: Packet)
    requires Shaped(rules, tunnel, false, 1, k, stranger) && 0 < i < k
    requires NewFrom(tunnel, p) && p.outInterface != tunnel && rules[i].destination.value.Contains(p.destination)
    ensures forall j :: 0 <= j < |rules| ==> (RuleMatches(rules[j], p) <==> j == i || j == k)
  {
    PrivateApart();
    hide PRIVATE_IPV4, Prefix.Contains;
    assert forall j :: 0 < j < k && RuleMatches(rules[j], p) ==> rules[j] == rules[i];
  }

  /** A rule that no new traffic from the tunnel meets is none of those up to the accept. */
  lemma {:induction false} UnrelatedRule(rules: seq<FirewallRule>, tunnel: string, k: nat, stranger: nat,
          x: FirewallRule)
    requires Shaped(rules, tunnel, false, 1, k, stranger) && forall o :: NewFrom(tunnel, o) ==> !RuleMatches(x, o)
    ensures forall m :: 0 <= m < k ==> rules[m] != x
  {
    hide PRIVATE_IPV4, RuleMatches;
    forall m | 0 <= m < k
      ensures rules[m] != x
    {
      var o := OwnPacket(rules, tunnel, false, 1, k, stranger, m);
    }
  }

  /** Behind such a rule a drop has the place the accept is given. */
  lemma {:induction false} Overtaken(rules: seq<FirewallRule>, tunnel: string, k: nat, stranger: nat, i: nat,
          x: FirewallRule)
    requires Shaped(rules, tunnel, false, 1, k, stranger) && forall o :: NewFrom(tunnel, o) ==> !RuleMatches(x, o)
    requires 0 < i < k
    ensures !KeepsOrder([x, rules[i]], rules, i, k)
  {
    var chain, drop := [x, rules[i]], rules[i];
    hide PRIVATE_IPV4;
    UnrelatedRule(rules, tunnel, k, stranger, x);
    assert RuleMatches(rules[k], Packet(tunnel, tunnel, 0, 0, false));
    assert rules[k] !in chain;
    hide RuleMatches, Shaped, First, Private;
    PresentAre(chain, rules[..k]);
    DistinctMembers(Present(chain, rules[..k]), [drop]);
    FirstIs(chain, drop, 1);
  }

  /** As with a single drop of the LAN block behind an unrelated rule: the accept is put before it, and the whole
      network it is about can be reached. */
  lemma {:induction false} LanBlockIsOvertaken(tunnel: string, q: Prefix, x: FirewallRule, p: Packet)
    requires q in PRIVATE_IPV4 && NewFrom(tunnel, p) && p.outInterface != tunnel && q.Contains(p.destination)
    requires forall o :: NewFrom(tunnel, o) ==> !RuleMatches(x, o)
    ensures var drop := FirewallRule(Some(tunnel), None, None, Some(q), false, false);
            FirstMatch(InsertAll([x, drop], ForwardRules(true, tunnel, false, [])).chain, p) == Some(true)
  {
    var rules, k := ForwardRules(true, tunnel, false, []), AcceptIndex(tunnel, false, []);
    var i := DropPlace(tunnel, q);
    var e, stranger := ForwardIsShaped(tunnel, false, []);
    hide ForwardRules, AcceptIndex, RuleMatches, FirstMatch, InsertAll, First, PRIVATE_IPV4, Prefix.Contains, Private;
    OnlyOwnDrop(rules, tunnel, k, stranger, i, p);
    Overtaken(rules, tunnel, k, stranger, i, x);
    var chain := [x, rules[i]];
    var live := InsertAll(chain, rules).chain;
    LiveHolds(chain, rules, tunnel);
    OrderIff(chain, rules, i, k);
    DifferentPlaces(live, rules, i, k);
    var j := LiveVerdict(live, rules, tunnel, p, i);
  }

  // ----- The input chain

  /** Overrides up to `c`, then the global drops. */
  ghost predicate InputShaped(rules: seq<FirewallRule>, tunnel: string, allowLan: bool, c: nat, stranger: nat) {
    && c <= |rules| && NoRepeats(rules) && (allowLan ==> c == |rules|)
    && (forall i :: 0 <= i < c ==> Private(rules[i], tunnel, true, !allowLan, stranger))
    && (forall i :: c <= i < |rules| ==> Private(rules[i], tunnel, false, false, stranger))
  }

  lemma {:induction false} InputIsShaped(tunnel: string, allowLan: bool, peers: seq<Client<nat>>)
      returns (c: nat, stranger: nat)
    requires DistinctClients(peers)
    ensures InputShaped(InputRules(true, tunnel, allowLan, peers), tunnel, allowLan, c, stranger)
  {
    hide PRIVATE_IPV4, Private, NoRepeats;
    InputRulesDistinct(tunnel, allowLan, peers);
    var rules := InputRules(true, tunnel, allowLan, peers);
    stranger := Stranger(peers);
    ClientRuleShape(tunnel, allowLan, peers, stranger);
    PrivateRuleShape(tunnel, None, false, stranger);
    var clients, globals := ClientRules(true, tunnel, allowLan, peers), GlobalRules(tunnel, allowLan);
    c := |clients|;
    assert forall i :: 0 <= i < c ==> rules[i] == clients[i] && rules[i] in clients;
    assert forall i :: c <= i < |rules| ==> rules[i] == globals[i - c] && rules[i] in globals;
  }

  lemma {:induction false} NoneOwnedMatches(chain: seq<FirewallRule>, owned: seq<FirewallRule>, p: Packet)
    requires forall r <- owned :: !RuleMatches(r, p)
    ensures FirstMatch(Without(chain, owned), p) == FirstMatch(chain, p)
  {
    hide RuleMatches;
    if chain != [] {
      NoneOwnedMatches(chain[1..], owned, p);
      var head := if chain[0] in owned then [] else [chain[0]];
      FirstMatchConcat(head, Without(chain[1..], owned), p);
      FirstMatchConcat([chain[0]], chain[1..], p);
      assert chain == [chain[0]] + chain[1..];
      NoRulesDecide(p);
      assert [chain[0]][1..] == [];
    }
  }

  /** The same for the rules on traffic to the server itself: such traffic is dropped where the policy forbids it,
      passed by a client's own permission, and otherwise left to the rules that were there. */
  lemma {:induction false} LiveInputImplementsPolicy(tunnel: string, allowLan: bool, peers: seq<Client<nat>>,
          chain: seq<FirewallRule>, p: Packet)
    requires DistinctClients(peers) && p.inInterface == tunnel
    requires var rules := InputRules(true, tunnel, allowLan, peers); KeptInFront(chain, rules, |rules|)
    ensures var rules := InputRules(true, tunnel, allowLan, peers);
            var live := InsertAll(chain, rules);
            var private, setting := InSome(PRIVATE_IPV4, 32, p.destination), SettingOf(peers, p.source);
            && !live.failed
            && FirstMatch(live.chain, p) ==
               (if !Reaches(setting, allowLan, private) then Some(false)
                else if private && !allowLan then Some(true)
                else FirstMatch(chain, p))
            && InsertAll(live.chain, rules) == Progress(live.chain, [], false)
            && DeleteAll(live.chain, live.owned) == chain
  {
    hide ClientRules, PRIVATE_IPV4, InSome, FirstMatch, SettingOf, InsertAll, KeptInFront, Without, DeleteAll,
      RuleMatches, NoRepeats;
    var rules := InputRules(true, tunnel, allowLan, peers);
    var live := InsertAll(chain, rules);
    InputRulesDistinct(tunnel, allowLan, peers);
    DistinctRulesNeverFail(chain, rules);
    RestartChangesNothing(chain, rules);
    CloseRestoresChain(chain, rules);
    InputListVerdict(tunnel, allowLan, peers, p);
    SomeMatch(rules, p);
    if FirstMatch(rules, p).None? {
      OwnedAreNew(chain, rules);
      FailsIff(chain, rules);
      PresentRulesKeepTheirOrder(chain, rules);
      NoneOwnedMatches(live.chain, live.owned, p);
    } else {
      var c, stranger := InputIsShaped(tunnel, allowLan, peers);
      FrontDecides(chain, rules, |rules|, p);
    }
  }

  /** What the list says to traffic for the server itself. */
  lemma {:induction false} InputListVerdict(tunnel: string, allowLan: bool, peers: seq<Client<nat>>, p: Packet)
    requires DistinctClients(peers) && p.inInterface == tunnel
    ensures var private, setting := InSome(PRIVATE_IPV4, 32, p.destination), SettingOf(peers, p.source);
            FirstMatch(InputRules(true, tunnel, allowLan, peers), p) ==
            (if !Reaches(setting, allowLan, private) then Some(false)
             else if private && !allowLan then Some(true)
             else None)
  {
    hide ClientRules, PRIVATE_IPV4, InSome, FirstMatch, SettingOf;
    FirstMatchConcat(ClientRules(true, tunnel, allowLan, peers), GlobalRules(tunnel, allowLan), p);
    ClientRulesDecide(true, tunnel, allowLan, peers, p);
    GlobalRulesDecide(tunnel, allowLan, p);
  }

  /** A client's permission stands before the drop of the same network. */
  lemma {:induction false} PermissionBeforeDrop(live: seq<FirewallRule>, rules: seq<FirewallRule>, tunnel: string,
          c: nat, stranger: nat, i: nat, j: nat)
    requires InputShaped(rules, tunnel, false, c, stranger) && Holds(live, rules, tunnel)
    requires Decides(live, rules, tunnel)
    requires i < c <= j < |rules| && rules[i].destination == rules[j].destination
    ensures InOrder(live, rules, i, j)
  {
    PrivateApart();
    hide PRIVATE_IPV4, Prefix.Contains;
    var p := Packet(tunnel, "", rules[i].source.value, rules[i].destination.value.address, false);
    assert forall m :: 0 <= m < c && RuleMatches(rules[m], p) ==> rules[m] == rules[i];
    assert RuleMatches(rules[i], p) && RuleMatches(rules[j], p);
    hide RuleMatches;
    ListVerdict(rules, p, i);
    DifferentPlaces(live, rules, i, j);
    var m := LiveVerdict(live, rules, tunnel, p, i);
  }

  /** Where no other rule touches new traffic to the server: all of it is dropped or permitted as by the policy exactly
      if every permission and the drop of its network had their places in list order. */
  lemma {:induction false} InputDecidedIff(tunnel: string, allowLan: bool, peers: seq<Client<nat>>,
          chain: seq<FirewallRule>)
    requires DistinctClients(peers) && Elsewhere(tunnel, chain, InputRules(true, tunnel, allowLan, peers))
    ensures var rules := InputRules(true, tunnel, allowLan, peers);
            (forall p :: NewFrom(tunnel, p) ==>
                  (FirstMatch(InsertAll(chain, rules).chain, p) == Some(false) <==>
                   !Reaches(SettingOf(peers, p.source), allowLan, InSome(PRIVATE_IPV4, 32, p.destination))))
            <==> forall i, j :: 0 <= i < j < |rules| && Disagree(rules[i], rules[j]) ==> KeepsOrder(chain, rules, i, j)
  {
    var rules := InputRules(true, tunnel, allowLan, peers);
    var c, stranger := InputIsShaped(tunnel, allowLan, peers);
    var live := InsertAll(chain, rules).chain;
    hide InputRules, RuleMatches, FirstMatch, InsertAll, First, NoRepeats, KeepsOrder, SettingOf, InSome, PRIVATE_IPV4,
      Private, Reaches, Disagree;
    LiveHolds(chain, rules, tunnel);
    forall p | NewFrom(tunnel, p)
      ensures FirstMatch(live, p) == FirstMatch(rules, p) <==>
              (FirstMatch(live, p) == Some(false) <==>
               !Reaches(SettingOf(peers, p.source), allowLan, InSome(PRIVATE_IPV4, 32, p.destination)))
    {
      InputVerdictIff(tunnel, allowLan, peers, live, p);
    }
    forall i: nat, j: nat | i < j < |rules|
      ensures InOrder(live, rules, i, j) <==> KeepsOrder(chain, rules, i, j)
    {
      OrderIff(chain, rules, i, j);
    }
    InputOrderIff(live, rules, tunnel, allowLan, c, stranger);
  }

  lemma {:induction false} InputVerdictIff(tunnel: string, allowLan: bool, peers: seq<Client<nat>>,
          live: seq<FirewallRule>, p: Packet)
    requires DistinctClients(peers) && Holds(live, InputRules(true, tunnel, allowLan, peers), tunnel)
    requires NewFrom(tunnel, p)
    ensures FirstMatch(live, p) == FirstMatch(InputRules(true, tunnel, allowLan, peers), p) <==>
            (FirstMatch(live, p) == Some(false) <==>
             !Reaches(SettingOf(peers, p.source), allowLan, InSome(PRIVATE_IPV4, 32, p.destination)))
  {
    hide InputRules, RuleMatches, SettingOf, InSome, PRIVATE_IPV4, Holds;
    InputListVerdict(tunnel, allowLan, peers, p);
    SameMatches(live, InputRules(true, tunnel, allowLan, peers), tunnel, p);
    match FirstMatch(live, p)
    case None =>
    case Some(accept) =>
      if accept {
        assert FirstMatch(live, p) == Some(true);
      } else {
        assert FirstMatch(live, p) == Some(false);
      }
  }

  lemma {:induction false} InputOrderIff(live: seq<FirewallRule>, rules: seq<FirewallRule>, tunnel: string,
          allowLan: bool, c: nat, stranger: nat)
    requires InputShaped(rules, tunnel, allowLan, c, stranger) && Holds(live, rules, tunnel)
    ensures Decides(live, rules, tunnel) <==>
              forall i, j :: 0 <= i < j < |rules| && Disagree(rules[i], rules[j]) ==> InOrder(live, rules, i, j)
  {
    hide RuleMatches, FirstMatch, First, NoRepeats, PRIVATE_IPV4, Holds;
    if Decides(live, rules, tunnel) {
      forall i: nat, j: nat | i < j < |rules| && Disagree(rules[i], rules[j])
        ensures InOrder(live, rules, i, j)
      {
        PermissionBeforeDrop(live, rules, tunnel, c, stranger, i, j);
      }
    }
    if forall i, j :: 0 <= i < j < |rules| && Disagree(rules[i], rules[j]) ==> InOrder(live, rules, i, j) {
      forall p | NewFrom(tunnel, p)
        ensures FirstMatch(live, p) == FirstMatch(rules, p)
      {
        InputInOrder(live, rules, tunnel, allowLan, c, stranger, p);
      }
    }
  }

  lemma {:induction false} SameMatches(live: seq<FirewallRule>, rules: seq<FirewallRule>, tunnel: string, p: Packet)
    requires Holds(live, rules, tunnel) && NewFrom(tunnel, p)
    ensures FirstMatch(live, p).Some? <==> FirstMatch(rules, p).Some?
  {
    hide RuleMatches;
    SomeMatch(live, p);
    SomeMatch(rules, p);
  }

  lemma {:induction false} InputInOrder(live: seq<FirewallRule>, rules: seq<FirewallRule>, tunnel: string,
          allowLan: bool, c: nat, stranger: nat, p: Packet)
    requires InputShaped(rules, tunnel, allowLan, c, stranger) && Holds(live, rules, tunnel) && NewFrom(tunnel, p)
    requires forall i, j :: 0 <= i < j < |rules| && Disagree(rules[i], rules[j]) ==> InOrder(live, rules, i, j)
    ensures FirstMatch(live, p) == FirstMatch(rules, p)
  {
    hide RuleMatches, FirstMatch, First, NoRepeats, Meet, PRIVATE_IPV4;
    SameMatches(live, rules, tunnel, p);
    forall i, j | 0 <= i < j < |rules| && RuleMatches(rules[i], p) && RuleMatches(rules[j], p)
                  && rules[i].accept != rules[j].accept
      ensures First(live, rules[i]) < First(live, rules[j])
    {
      MatchingMeet(rules[i], rules[j], p);
      assert InOrder(live, rules, i, j);
    }
    if FirstMatch(rules, p).Some? {
      SameVerdict(live, rules, p);
    }
  }
}
