/** Keeping subscribers out of the server's own network: two rule compilers, one policy. */
module LanPolicy {
  import opened Wrappers
  import opened Powers
  import opened Cidr

  function V4(a: nat, b: nat, c: nat, d: nat): nat {
    ((a * 256 + b) * 256 + c) * 256 + d
  }

  /** Section 3 of RFC 1918, link-local, carrier-grade NAT and loopback. */
  const PRIVATE_IPV4: seq<Prefix> := [
    Prefix(32, V4(10, 0, 0, 0), 8), Prefix(32, V4(172, 16, 0, 0), 12), Prefix(32, V4(192, 168, 0, 0), 16),
    Prefix(32, V4(169, 254, 0, 0), 16), Prefix(32, V4(100, 64, 0, 0), 10), Prefix(32, V4(127, 0, 0, 0), 8)]

  const PRIVATE_IPV6: seq<Prefix> := [
    Prefix(128, 0xfc00_0000_0000_0000_0000_0000_0000_0000, 7),
    Prefix(128, 0xfe80_0000_0000_0000_0000_0000_0000_0000, 10),
    Prefix(128, 1, 128)]

  predicate InSome(ps: seq<Prefix>, width: nat, a: nat) {
    exists p <- ps :: p.width == width && p.Contains(a)
  }

  predicate Between(a: nat, first: nat, last: nat) {
    first <= a <= last
  }

  /** The private addresses: 10/8, 172.16/12, 192.168/16, 169.254/16, 100.64/10 and 127/8 ... */
  lemma {:induction false} PrivateV4Is(a: nat)
    ensures InSome(PRIVATE_IPV4, 32, a) <==>
              || Between(a, V4(10, 0, 0, 0), V4(10, 255, 255, 255))
              || Between(a, V4(172, 16, 0, 0), V4(172, 31, 255, 255))
              || Between(a, V4(192, 168, 0, 0), V4(192, 168, 255, 255))
              || Between(a, V4(169, 254, 0, 0), V4(169, 254, 255, 255))
              || Between(a, V4(100, 64, 0, 0), V4(100, 127, 255, 255))
              || Between(a, V4(127, 0, 0, 0), V4(127, 255, 255, 255))
  {
    PowersOfPrivate();
    hide Pow2;
    var ps := PRIVATE_IPV4;
    OneOfSix(ps, a);
    hide InSome;
  }

  lemma {:induction false} OneOfSix(ps: seq<Prefix>, a: nat)
    requires |ps| == 6 && forall p <- ps :: p.width == 32
    ensures InSome(ps, 32, a) <==>
              || ps[0].Contains(a) || ps[1].Contains(a) || ps[2].Contains(a)
              || ps[3].Contains(a) || ps[4].Contains(a) || ps[5].Contains(a)
  {
    hide Prefix.Contains;
    assert forall i :: 0 <= i < 6 ==> ps[i] in ps;
  }

  lemma {:induction false} PowersOfPrivate()
    ensures Pow2(16) == 65_536 && Pow2(20) == 1_048_576 && Pow2(22) == 4_194_304 && Pow2(24) == 16_777_216
  {
    assert Pow2(4) == 16 && Pow2(8) == 256 && Pow2(12) == 4096 && Pow2(16) == 65_536 && Pow2(20) == 1_048_576;
  }

  /** ... and fc00::/7, fe80::/10 and ::1. */
  lemma {:induction false} PrivateV6Is(a: nat)
    ensures InSome(PRIVATE_IPV6, 128, a) <==>
              || 0xfc00_0000_0000_0000_0000_0000_0000_0000 <= a < 0xfe00_0000_0000_0000_0000_0000_0000_0000
              || 0xfe80_0000_0000_0000_0000_0000_0000_0000 <= a < 0xfec0_0000_0000_0000_0000_0000_0000_0000
              || a == 1
  {
    LargePowers();
    hide Pow2;
    var ps := PRIVATE_IPV6;
    assert forall i :: 0 <= i < 3 ==> ps[i] in ps;
    assert InSome(ps, 128, a) <==> ps[0].Contains(a) || ps[1].Contains(a) || ps[2].Contains(a);
  }

  lemma {:induction false} LargePowers()
    ensures Pow2(121) == 0x200_0000_0000_0000_0000_0000_0000_0000
    ensures Pow2(118) == 0x40_0000_0000_0000_0000_0000_0000_0000 && Pow2(0) == 1
  {
    PowersOfPrivate();
    assert Pow2(3) == 8 && Pow2(0) == 1;
    Pow2Adds(24, 24);
    Pow2Adds(48, 48);
    Pow2Adds(96, 22);
    Pow2Adds(118, 3);
    hide Pow2;
  }

  /** The policy: everything but private destinations, and those too if the client's own setting,
      or the global one when it has none, allows them. */
  predicate Reaches(setting: Option<bool>, allowLan: bool, private: bool) {
    !private || (if setting.Some? then setting.value else allowLan)
  }

  /** A peer or an account: who it is and its own setting. */
  datatype Client<Id> = Client(id: Id, allowLan: Option<bool>)

  ghost predicate DistinctClients<Id>(clients: seq<Client<Id>>) {
    forall i, j :: 0 <= i < j < |clients| ==> clients[i].id != clients[j].id
  }

  function SettingOf<Id(==)>(clients: seq<Client<Id>>, id: Id): Option<bool> {
    if clients == [] then None
    else
      var last := clients[|clients| - 1];
      if last.id == id then last.allowLan else SettingOf(clients[..|clients| - 1], id)
  }

  /** Clients whose setting is the global one need no rules of their own; `skip` says so. */
  predicate Overrides<Id>(skip: bool, allowLan: bool, c: Client<Id>) {
    c.allowLan.Some? && (skip ==> c.allowLan.value != allowLan)
  }

  // ----- The packet backend: rules of a firewall chain

  datatype FirewallRule = FirewallRule(
    inInterface: Option<string>, outInterface: Option<string>, source: Option<nat>, destination: Option<Prefix>,
    established: bool, accept: bool)

  datatype Packet = Packet(inInterface: string, outInterface: string, source: nat, destination: nat, established: bool)

  predicate RuleMatches(r: FirewallRule, p: Packet) {
    && (r.inInterface.Some? ==> p.inInterface == r.inInterface.value)
    && (r.outInterface.Some? ==> p.outInterface == r.outInterface.value)
    && (r.source.Some? ==> p.source == r.source.value)
    && (r.destination.Some? ==> r.destination.value.Contains(p.destination))
    && (r.established ==> p.established)
  }

  /** The verdict of the first rule that matches, if one does. */
  function FirstMatch(rules: seq<FirewallRule>, p: Packet): Option<bool> {
    if rules == [] then None
    else if RuleMatches(rules[0], p) then Some(rules[0].accept)
    else FirstMatch(rules[1..], p)
  }

  function PrivateRules(tunnel: string, source: Option<nat>, ps: seq<Prefix>, accept: bool): (rules: seq<FirewallRule>)
    ensures |rules| == |ps|
  {
    seq(|ps|, i requires 0 <= i < |ps| => FirewallRule(Some(tunnel), None, source, Some(ps[i]), false, accept))
  }

  function ClientRules(skip: bool, tunnel: string, allowLan: bool, peers: seq<Client<nat>>): seq<FirewallRule> {
    if peers == [] then []
    else
      var front, peer := ClientRules(skip, tunnel, allowLan, peers[..|peers| - 1]), peers[|peers| - 1];
      if Overrides(skip, allowLan, peer)
          then front + PrivateRules(tunnel, Some(peer.id), PRIVATE_IPV4, peer.allowLan.value)
      else front
  }

  function Isolation(tunnel: string): FirewallRule {
    FirewallRule(Some(tunnel), Some(tunnel), None, None, false, false)
  }

  function GlobalRules(tunnel: string, allowLan: bool): seq<FirewallRule> {
    if allowLan then [] else PrivateRules(tunnel, None, PRIVATE_IPV4, false)
  }

  function Accepts(tunnel: string): seq<FirewallRule> {
    [FirewallRule(Some(tunnel), None, None, None, false, true),
        FirewallRule(None, Some(tunnel), None, None, true, true)]
  }

  function BehindIsolation(skip: bool, tunnel: string, allowLan: bool, peers: seq<Client<nat>>): seq<FirewallRule> {
    ClientRules(skip, tunnel, allowLan, peers) + (GlobalRules(tunnel, allowLan) + Accepts(tunnel))
  }

  function ForwardRules(skip: bool, tunnel: string, allowLan: bool, peers: seq<Client<nat>>): seq<FirewallRule> {
    [Isolation(tunnel)] + BehindIsolation(skip, tunnel, allowLan, peers)
  }

  function InputRules(skip: bool, tunnel: string, allowLan: bool, peers: seq<Client<nat>>): seq<FirewallRule> {
    ClientRules(skip, tunnel, allowLan, peers) + GlobalRules(tunnel, allowLan)
  }

  method AppendPrivate(rules: seq<FirewallRule>, tunnel: string, source: Option<nat>, accept: bool)
      returns (r: seq<FirewallRule>)
    ensures r == rules + PrivateRules(tunnel, source, PRIVATE_IPV4, accept)
  {
    r := rules;
    var ps := PRIVATE_IPV4;
    for i := 0 to |ps|
      invariant r == rules + PrivateRules(tunnel, source, ps[..i], accept)
    {
      r := r + [FirewallRule(Some(tunnel), None, source, Some(ps[i]), false, accept)];
    }
    assert ps[..|ps|] == ps;
  }

  method AppendClients(before: seq<FirewallRule>, tunnel: string, allowLan: bool, peers: seq<Client<nat>>)
      returns (rules: seq<FirewallRule>)
    ensures rules == before + ClientRules(true, tunnel, allowLan, peers)
  {
    rules := before;
    for i := 0 to |peers|
      invariant rules == before + ClientRules(true, tunnel, allowLan, peers[..i])
    {
      assert peers[..i + 1][..i] == peers[..i];
      var peer := peers[i];
      if peer.allowLan.None? || peer.allowLan.value == allowLan {
        continue;
      }
      rules := AppendPrivate(rules, tunnel, Some(peer.id), peer.allowLan.value);
    }
    assert peers[..|peers|] == peers;
  }

  method PacketForwardRules(tunnel: string, allowLan: bool) returns (rules: seq<FirewallRule>)
    ensures rules == [Isolation(tunnel)] + (GlobalRules(tunnel, allowLan) + Accepts(tunnel))
  {
    rules := [FirewallRule(Some(tunnel), Some(tunnel), None, None, false, false)];
    if !allowLan {
      rules := AppendPrivate(rules, tunnel, None, false);
    }
    rules := rules + [FirewallRule(Some(tunnel), None, None, None, false, true),
                      FirewallRule(None, Some(tunnel), None, None, true, true)];
  }

  method PacketClientForwardRules(tunnel: string, allowLan: bool, peers: seq<Client<nat>>)
      returns (rules: seq<FirewallRule>)
    ensures rules == ForwardRules(true, tunnel, allowLan, peers)
  {
    var base := PacketForwardRules(tunnel, allowLan);
    rules := AppendClients([base[0]], tunnel, allowLan, peers);
    rules := rules + base[1..];
  }

  method PacketClientInputRules(tunnel: string, allowLan: bool, peers: seq<Client<nat>>)
      returns (rules: seq<FirewallRule>)
    ensures rules == InputRules(true, tunnel, allowLan, peers)
  {
    rules := AppendClients([], tunnel, allowLan, peers);
    if !allowLan {
      rules := AppendPrivate(rules, tunnel, None, false);
    }
  }

  // ----- What the chain decides

  lemma {:induction false} FirstMatchConcat(a: seq<FirewallRule>, b: seq<FirewallRule>, p: Packet)
    ensures FirstMatch(a + b, p) == if FirstMatch(a, p).Some? then FirstMatch(a, p) else FirstMatch(b, p)
  {
    if a == [] {
      assert a + b == b;
    } else {
      assert (a + b)[1..] == a[1..] + b;
      FirstMatchConcat(a[1..], b, p);
    }
  }

  /** A block of private rules decides exactly its own traffic to private destinations. */
  lemma {:induction false} PrivateRulesDecide(tunnel: string, source: Option<nat>, ps: seq<Prefix>, accept: bool,
          p: Packet)
    requires forall q <- ps :: q.width == 32
    ensures FirstMatch(PrivateRules(tunnel, source, ps, accept), p) ==
            if p.inInterface == tunnel && (source.Some? ==> p.source == source.value) && InSome(ps, 32, p.destination)
            then Some(accept) else None
  {
    if ps != [] {
      assert ps == [ps[0]] + ps[1..];
      assert PrivateRules(tunnel, source, ps, accept)[1..] == PrivateRules(tunnel, source, ps[1..], accept);
      PrivateRulesDecide(tunnel, source, ps[1..], accept, p);
      assert InSome(ps, 32, p.destination) <==> ps[0].Contains(p.destination) || InSome(ps[1..], 32, p.destination);
    }
  }

  lemma {:induction false} PrivateWidth()
    ensures forall p <- PRIVATE_IPV4 :: p.width == 32
    ensures forall p <- PRIVATE_IPV6 :: p.width == 128
  {
  }

  lemma {:induction false} ClientRulesDecide(skip: bool, tunnel: string, allowLan: bool, peers: seq<Client<nat>>,
          p: Packet)
    requires DistinctClients(peers)
    ensures var setting := SettingOf(peers, p.source);
            FirstMatch(ClientRules(skip, tunnel, allowLan, peers), p) ==
            if p.inInterface == tunnel && InSome(PRIVATE_IPV4, 32, p.destination) && setting.Some?
                && (skip ==> setting.value != allowLan)
            then setting else None
  {
    hide FirstMatch, PrivateRules, InSome;
    if peers == [] {
      NoRulesDecide(p);
    } else {
      var n := |peers| - 1;
      ClientRulesDecide(skip, tunnel, allowLan, peers[..n], p);
      PrivateWidth();
      var own := PrivateRules(tunnel, Some(peers[n].id), PRIVATE_IPV4, if peers[n].allowLan.Some?
          then peers[n].allowLan.value else false);
      FirstMatchConcat(ClientRules(skip, tunnel, allowLan, peers[..n]), own, p);
      PrivateRulesDecide(tunnel, Some(peers[n].id), PRIVATE_IPV4, if peers[n].allowLan.Some?
          then peers[n].allowLan.value else false, p);
      if peers[n].id == p.source {
        UnknownClient(peers[..n], p.source);
      }
    }
  }

  lemma {:induction false} NoRulesDecide(p: Packet)
    ensures FirstMatch([], p) == None
  {
  }

  lemma {:induction false} UnknownClient<Id>(clients: seq<Client<Id>>, id: Id)
    requires forall c <- clients :: c.id != id
    ensures SettingOf(clients, id) == None
  {
    if clients != [] {
      UnknownClient(clients[..|clients| - 1], id);
    }
  }

  lemma {:induction false} GlobalRulesDecide(tunnel: string, allowLan: bool, p: Packet)
    ensures FirstMatch(GlobalRules(tunnel, allowLan), p) ==
            if !allowLan && p.inInterface == tunnel && InSome(PRIVATE_IPV4, 32, p.destination) then Some(false)
                else None
  {
    hide InSome;
    PrivateWidth();
    PrivateRulesDecide(tunnel, None, PRIVATE_IPV4, false, p);
  }

  lemma {:induction false} AcceptsDecide(tunnel: string, p: Packet)
    ensures FirstMatch(Accepts(tunnel), p) ==
            if p.inInterface == tunnel || (p.outInterface == tunnel && p.established) then Some(true) else None
  {
    var rules := Accepts(tunnel);
    assert rules[1..][1..] == [];
    assert FirstMatch(rules[1..], p) == if RuleMatches(rules[1], p) then Some(true) else FirstMatch(rules[1..][1..], p);
  }

  /** The rules behind the isolation rule know nothing of it: they let traffic back into the tunnel. */
  lemma {:induction false} BehindIsolationDecides(skip: bool, tunnel: string, allowLan: bool, peers: seq<Client<nat>>,
          p: Packet)
    requires DistinctClients(peers)
    ensures FirstMatch(BehindIsolation(skip, tunnel, allowLan, peers), p) ==
            if p.inInterface == tunnel then
              Some(Reaches(SettingOf(peers, p.source), allowLan, InSome(PRIVATE_IPV4, 32, p.destination)))
            else if p.outInterface == tunnel && p.established then Some(true) else None
  {
    hide ClientRules, GlobalRules, Accepts, InSome, SettingOf;
    var clients, globals, accepts := ClientRules(skip, tunnel, allowLan, peers), GlobalRules(tunnel, allowLan),
        Accepts(tunnel);
    FirstMatchConcat(clients, globals + accepts, p);
    FirstMatchConcat(globals, accepts, p);
    ClientRulesDecide(skip, tunnel, allowLan, peers, p);
    GlobalRulesDecide(tunnel, allowLan, p);
    AcceptsDecide(tunnel, p);
  }

  /** Traffic from the tunnel: nothing goes back into it, and otherwise the policy decides; traffic
      from elsewhere is only touched if it is a reply into the tunnel. */
  lemma {:induction false} ForwardImplementsPolicy(skip: bool, tunnel: string, allowLan: bool,
        peers: seq<Client<nat>>, p: Packet)
    requires DistinctClients(peers)
    ensures FirstMatch(ForwardRules(skip, tunnel, allowLan, peers), p) ==
            if p.inInterface == tunnel then
              Some(p.outInterface != tunnel
                   && Reaches(SettingOf(peers, p.source), allowLan, InSome(PRIVATE_IPV4, 32, p.destination)))
            else if p.outInterface == tunnel && p.established then Some(true) else None
  {
    hide BehindIsolation, InSome, SettingOf;
    FirstMatchConcat([Isolation(tunnel)], BehindIsolation(skip, tunnel, allowLan, peers), p);
    BehindIsolationDecides(skip, tunnel, allowLan, peers, p);
    assert [Isolation(tunnel)][1..] == [];
    assert FirstMatch([Isolation(tunnel)], p) ==
           if p.inInterface == tunnel && p.outInterface == tunnel then Some(false) else None;
  }

  /** Traffic from the tunnel to the server itself is dropped exactly when the policy forbids it. */
  lemma {:induction false} InputImplementsPolicy(skip: bool, tunnel: string, allowLan: bool, peers: seq<Client<nat>>,
          p: Packet)
    requires DistinctClients(peers)
    ensures FirstMatch(InputRules(skip, tunnel, allowLan, peers), p) == Some(false) <==>
            p.inInterface == tunnel
                && !Reaches(SettingOf(peers, p.source), allowLan, InSome(PRIVATE_IPV4, 32, p.destination))
    ensures p.inInterface != tunnel ==> FirstMatch(InputRules(skip, tunnel, allowLan, peers), p) == None
  {
    hide ClientRules, GlobalRules, InSome, SettingOf;
    FirstMatchConcat(ClientRules(skip, tunnel, allowLan, peers), GlobalRules(tunnel, allowLan), p);
    ClientRulesDecide(skip, tunnel, allowLan, peers, p);
    GlobalRulesDecide(tunnel, allowLan, p);
  }

  /** Leaving out the settings that equal the global one changes no forwarding verdict. */
  lemma {:induction false} SkippingChangesNothing(tunnel: string, allowLan: bool, peers: seq<Client<nat>>, p: Packet)
    requires DistinctClients(peers)
    ensures FirstMatch(ForwardRules(true, tunnel, allowLan, peers),
            p) == FirstMatch(ForwardRules(false, tunnel, allowLan, peers), p)
  {
    hide FirstMatch, ForwardRules;
    ForwardImplementsPolicy(true, tunnel, allowLan, peers, p);
    ForwardImplementsPolicy(false, tunnel, allowLan, peers, p);
  }

  // ----- The ordinary backend: rules of the proxy core

  datatype Egress =
    | UserDirect(user: string)
    | UserReject(user: string, destination: Prefix)
    | AnyReject(destination: Prefix)
    | MatchDirect

  datatype Request = Request(user: string, width: nat, destination: nat)

  predicate EgressMatches(r: Egress, q: Request) {
    match r
    case UserDirect(user) => q.user == user
    case UserReject(user, p) => q.user == user && p.width == q.width && p.Contains(q.destination)
    case AnyReject(p) => p.width == q.width && p.Contains(q.destination)
    case MatchDirect => true
  }

  /** Whether the first rule that matches lets the request out. */
  function FirstEgress(rules: seq<Egress>, q: Request): Option<bool> {
    if rules == [] then None
    else if EgressMatches(rules[0], q) then Some(rules[0].UserDirect? || rules[0].MatchDirect?)
    else FirstEgress(rules[1..], q)
  }

  function Rejects(user: Option<string>, ps: seq<Prefix>): (rules: seq<Egress>)
    ensures |rules| == |ps|
  {
    seq(|ps|, i requires 0 <= i < |ps| => if user.Some? then UserReject(user.value, ps[i]) else AnyReject(ps[i]))
  }

  const PRIVATE: seq<Prefix> := PRIVATE_IPV4 + PRIVATE_IPV6

  function UserRules(allowLan: bool, clients: seq<Client<string>>): seq<Egress> {
    if clients == [] then []
    else
      var front, c := UserRules(allowLan, clients[..|clients| - 1]), clients[|clients| - 1];
      if !Overrides(true, allowLan, c) then front
      else if c.allowLan.value then front + [UserDirect(c.id)]
      else front + Rejects(Some(c.id), PRIVATE)
  }

  function GlobalEgress(allowLan: bool): seq<Egress> {
    (if allowLan then [] else Rejects(None, PRIVATE)) + [MatchDirect]
  }

  method AppendRejects(before: seq<Egress>, user: Option<string>, ps: seq<Prefix>) returns (rules: seq<Egress>)
    ensures rules == before + Rejects(user, ps)
  {
    rules := before;
    for i := 0 to |ps|
      invariant rules == before + Rejects(user, ps[..i])
    {
      rules := rules + [if user.Some? then UserReject(user.value, ps[i]) else AnyReject(ps[i])];
    }
    assert ps[..|ps|] == ps;
  }

  method OrdinaryEgressRules(allowLan: bool) returns (rules: seq<Egress>)
    ensures rules == GlobalEgress(allowLan)
  {
    if allowLan {
      return [MatchDirect];
    }
    rules := AppendRejects([], None, PRIVATE_IPV4);
    rules := AppendRejects(rules, None, PRIVATE_IPV6);
    assert rules == Rejects(None, PRIVATE);
    rules := rules + [MatchDirect];
  }

  method OrdinaryClientEgressRules(allowLan: bool, clients: seq<Client<string>>) returns (rules: seq<Egress>)
    ensures rules == UserRules(allowLan, clients) + GlobalEgress(allowLan)
  {
    rules := [];
    for i := 0 to |clients|
      invariant rules == UserRules(allowLan, clients[..i])
    {
      assert clients[..i + 1][..i] == clients[..i];
      var client := clients[i];
      if client.allowLan.None? || client.allowLan.value == allowLan {
        continue;
      }
      if client.allowLan.value {
        rules := rules + [UserDirect(client.id)];
        continue;
      }
      rules := AppendRejects(rules, Some(client.id), PRIVATE);
    }
    assert clients[..|clients|] == clients;
    var base := OrdinaryEgressRules(allowLan);
    rules := rules + base;
  }

  lemma {:induction false} FirstEgressConcat(a: seq<Egress>, b: seq<Egress>, q: Request)
    ensures FirstEgress(a + b, q) == if FirstEgress(a, q).Some? then FirstEgress(a, q) else FirstEgress(b, q)
  {
    if a == [] {
      assert a + b == b;
    } else {
      assert (a + b)[1..] == a[1..] + b;
      FirstEgressConcat(a[1..], b, q);
    }
  }

  lemma {:induction false} RejectsDecide(user: Option<string>, ps: seq<Prefix>, q: Request)
    ensures FirstEgress(Rejects(user, ps), q) ==
            if (user.Some? ==> q.user == user.value) && InSome(ps, q.width, q.destination) then Some(false) else None
  {
    if ps != [] {
      assert ps == [ps[0]] + ps[1..];
      assert Rejects(user, ps)[1..] == Rejects(user, ps[1..]);
      RejectsDecide(user, ps[1..], q);
      assert InSome(ps, q.width, q.destination) <==>
             (ps[0].width == q.width && ps[0].Contains(q.destination)) || InSome(ps[1..], q.width, q.destination);
    }
  }

  lemma {:induction false} UserRulesDecide(allowLan: bool, clients: seq<Client<string>>, q: Request)
    requires DistinctClients(clients)
    ensures var setting := SettingOf(clients, q.user);
            FirstEgress(UserRules(allowLan, clients), q) ==
            if setting.Some? && setting.value != allowLan && (setting.value || InSome(PRIVATE, q.width, q.destination))
            then setting else None
  {
    hide FirstEgress, Rejects, InSome;
    if clients == [] {
      NoEgressDecides(q);
    } else {
      var n := |clients| - 1;
      UserRulesDecide(allowLan, clients[..n], q);
      DirectDecides(clients[n].id, q);
      RejectsDecide(Some(clients[n].id), PRIVATE, q);
      FirstEgressConcat(UserRules(allowLan, clients[..n]), [UserDirect(clients[n].id)], q);
      FirstEgressConcat(UserRules(allowLan, clients[..n]), Rejects(Some(clients[n].id), PRIVATE), q);
      if clients[n].id == q.user {
        UnknownClient(clients[..n], q.user);
      }
    }
  }

  lemma {:induction false} NoEgressDecides(q: Request)
    ensures FirstEgress([], q) == None
  {
  }

  lemma {:induction false} DirectDecides(user: string, q: Request)
    ensures FirstEgress([UserDirect(user)], q) == if q.user == user then Some(true) else None
  {
    assert [UserDirect(user)][1..] == [];
  }

  /** Every request is decided, and it gets out exactly if the policy lets it. */
  lemma {:induction false} OrdinaryImplementsPolicy(allowLan: bool, clients: seq<Client<string>>, q: Request)
    requires DistinctClients(clients)
    ensures FirstEgress(UserRules(allowLan, clients) + GlobalEgress(allowLan), q) ==
            Some(Reaches(SettingOf(clients, q.user), allowLan, InSome(PRIVATE, q.width, q.destination)))
  {
    hide UserRules, Rejects, InSome, SettingOf;
    var rejects := if allowLan then [] else Rejects(None, PRIVATE);
    FirstEgressConcat(UserRules(allowLan, clients), GlobalEgress(allowLan), q);
    FirstEgressConcat(rejects, [MatchDirect], q);
    UserRulesDecide(allowLan, clients, q);
    RejectsDecide(None, PRIVATE, q);
    NoEgressDecides(q);
    assert FirstEgress([MatchDirect], q) == Some(true);
  }

  /** One policy: for the same setting both backends give the same answer for an IPv4 destination. */
  lemma {:induction false} BackendsAgree(tunnel: string, allowLan: bool, peers: seq<Client<nat>>, p: Packet,
          clients: seq<Client<string>>, user: string)
    requires DistinctClients(peers) && DistinctClients(clients)
    requires p.inInterface == tunnel && p.outInterface != tunnel
    requires SettingOf(peers, p.source) == SettingOf(clients, user)
    ensures FirstMatch(ForwardRules(true, tunnel, allowLan, peers), p) ==
            FirstEgress(UserRules(allowLan, clients) + GlobalEgress(allowLan), Request(user, 32, p.destination))
  {
    hide FirstMatch, ForwardRules, FirstEgress, UserRules, GlobalEgress, InSome;
    ForwardImplementsPolicy(true, tunnel, allowLan, peers, p);
    OrdinaryImplementsPolicy(allowLan, clients, Request(user, 32, p.destination));
    PrivateFamilies(p.destination);
  }

  lemma {:induction false} PrivateFamilies(destination: nat)
    ensures InSome(PRIVATE, 32, destination) <==> InSome(PRIVATE_IPV4, 32, destination)
  {
    hide Prefix.Contains;
    PrivateWidth();
    assert forall p :: p in PRIVATE <==> p in PRIVATE_IPV4 || p in PRIVATE_IPV6;
  }
}
