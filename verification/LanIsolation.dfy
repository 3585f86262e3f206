/** The policy as it stands in a live chain. */
module LanIsolation {
  import opened Wrappers
  import opened LanPolicy
  import opened Seqs
  import RuleChain

  lemma {:induction false} PrivateDistinct()
    ensures NoRepeats(PRIVATE_IPV4)
  {
  }

  lemma {:induction false} PrivateRulesDistinct(tunnel: string, source: Option<nat>, accept: bool)
    ensures NoRepeats(PrivateRules(tunnel, source, PRIVATE_IPV4, accept))
  {
    PrivateDistinct();
    hide PRIVATE_IPV4;
    var rules := PrivateRules(tunnel, source, PRIVATE_IPV4, accept);
    forall i, j | 0 <= i < j < |rules|
      ensures rules[i] != rules[j]
    {
      assert rules[i].destination == Some(PRIVATE_IPV4[i]) && rules[j].destination == Some(PRIVATE_IPV4[j]);
    }
  }

  lemma {:induction false} DistinctConcat<T>(a: seq<T>, b: seq<T>)
    requires NoRepeats(a) && NoRepeats(b) && forall x <- a :: x !in b
    ensures NoRepeats(a + b)
  {
    forall i, j | 0 <= i < j < |a + b|
      ensures (a + b)[i] != (a + b)[j]
    {
      if i < |a| <= j {
        assert a[i] in a;
      }
    }
  }

  lemma {:induction false} ClientRulesShape(tunnel: string, allowLan: bool, peers: seq<Client<nat>>)
    requires DistinctClients(peers)
    ensures NoRepeats(ClientRules(true, tunnel, allowLan, peers))
    ensures forall r <- ClientRules(true, tunnel, allowLan, peers) ::
              r.source.Some? && r.destination.Some? && r.accept == !allowLan && exists c <- peers ::
                    c.id == r.source.value
  {
    if peers != [] {
      var n := |peers| - 1;
      ClientRulesShape(tunnel, allowLan, peers[..n]);
      var c := peers[n];
      assert forall d <- peers[..n] :: d in peers && d.id != c.id;
      if Overrides(true, allowLan, c) {
        PrivateRulesDistinct(tunnel, Some(c.id), c.allowLan.value);
        DistinctConcat(ClientRules(true, tunnel, allowLan, peers[..n]),
            PrivateRules(tunnel, Some(c.id), PRIVATE_IPV4, c.allowLan.value));
      }
    }
  }

  /** Peers with different addresses give rules without repeats. */
  lemma {:induction false} ForwardRulesDistinct(tunnel: string, allowLan: bool, peers: seq<Client<nat>>)
    requires DistinctClients(peers)
    ensures NoRepeats(ForwardRules(true, tunnel, allowLan, peers))
  {
    hide ClientRules, PRIVATE_IPV4;
    BehindIsolationShape(tunnel, allowLan, peers);
    DistinctConcat([Isolation(tunnel)], BehindIsolation(true, tunnel, allowLan, peers));
  }

  lemma {:induction false} BehindIsolationShape(tunnel: string, allowLan: bool, peers: seq<Client<nat>>)
    requires DistinctClients(peers)
    ensures NoRepeats(BehindIsolation(true, tunnel, allowLan, peers))
    ensures Isolation(tunnel) !in BehindIsolation(true, tunnel, allowLan, peers)
  {
    hide ClientRules, PRIVATE_IPV4;
    ClientRulesShape(tunnel, allowLan, peers);
    PrivateRulesDistinct(tunnel, None, false);
    var clients, globals, accepts := ClientRules(true, tunnel, allowLan, peers), GlobalRules(tunnel, allowLan),
        Accepts(tunnel);
    DistinctConcat(globals, accepts);
    DistinctConcat(clients, globals + accepts);
  }

  /** A chain that holds the isolation rule keeps its head, and that rule's verdict stands: an accept
      there, such as the tunnel's own, lets traffic back into the tunnel. */
  lemma {:induction false} HeadOfChainDecides(tunnel: string, allowLan: bool, peers: seq<Client<nat>>,
        chain: seq<FirewallRule>, p: Packet)
    requires Isolation(tunnel) in chain && RuleMatches(chain[0], p)
    ensures FirstMatch(RuleChain.InsertAll(chain, ForwardRules(true, tunnel, allowLan, peers)).chain,
            p) == Some(chain[0].accept)
    ensures p.inInterface == p.outInterface == tunnel && chain[0] == Accepts(tunnel)[0] ==>
              FirstMatch(RuleChain.InsertAll(chain, ForwardRules(true, tunnel, allowLan, peers)).chain, p) == Some(true)
  {
    hide BehindIsolation;
    RuleChain.HeadIsNotOvertaken(chain, ForwardRules(true, tunnel, allowLan, peers));
  }

  /** A chain that holds the isolation rule behind other rules, and none of the others: those are put
      before it, and traffic from the tunnel back into it passes whenever it may reach its destination. */
  lemma {:induction false} AcceptOvertakesIsolation(tunnel: string, allowLan: bool, peers: seq<Client<nat>>,
          chain: seq<FirewallRule>, p: Packet)
    requires DistinctClients(peers) && p.inInterface == p.outInterface == tunnel
    requires Isolation(tunnel) in chain && chain[0] != Isolation(tunnel) && !RuleMatches(chain[0], p)
    requires forall r <- BehindIsolation(true, tunnel, allowLan, peers) :: r !in chain
    ensures var live := RuleChain.InsertAll(chain, ForwardRules(true, tunnel, allowLan, peers));
            FirstMatch(live.chain, p) ==
            Some(Reaches(SettingOf(peers, p.source), allowLan, InSome(PRIVATE_IPV4, 32, p.destination)))
  {
    hide BehindIsolation, InSome, PRIVATE_IPV4, SettingOf;
    var rules, others := ForwardRules(true, tunnel, allowLan, peers), BehindIsolation(true, tunnel, allowLan, peers);
    BehindIsolationShape(tunnel, allowLan, peers);
    RuleChain.OthersFollowHead(chain, Isolation(tunnel), others);
    assert [chain[0]] + others + chain[1..] == [chain[0]] + (others + chain[1..]);
    assert ([chain[0]] + (others + chain[1..]))[1..] == others + chain[1..];
    FirstMatchConcat(others, chain[1..], p);
    BehindIsolationDecides(true, tunnel, allowLan, peers, p);
  }

  /** Two peers with one address and the same override: on a chain shorter than the override, without
      the tunnel's accept, the start fails and leaves the accepts out. */
  lemma {:induction false} SharedAddressFails(tunnel: string, allowLan: bool, address: nat, chain: seq<FirewallRule>)
    requires |chain| < |PRIVATE_IPV4| && Accepts(tunnel)[0] !in chain
    ensures var peer := Client(address, Some(!allowLan));
            RuleChain.InsertAll(chain, ForwardRules(true, tunnel, allowLan, [peer, peer])).failed
  {
    hide PRIVATE_IPV4;
    var peer := Client(address, Some(!allowLan));
    var own := PrivateRules(tunnel, Some(address), PRIVATE_IPV4, !allowLan);
    var globals, accepts := GlobalRules(tunnel, allowLan), Accepts(tunnel);
    TwiceTheOverride(tunnel, allowLan, peer);
    var rules := ForwardRules(true, tunnel, allowLan, [peer, peer]);
    var before := [Isolation(tunnel)] + (own + own) + globals;
    assert rules == before + accepts;
    var k := |before|;
    assert rules[..k] == before && rules[k] == accepts[0];
    var distinct := [Isolation(tunnel)] + own + globals;
    assert forall r <- before :: r in distinct;
    Elements(distinct, RuleChain.Lacking(chain, before));
    assert RuleChain.Stranded(chain, rules, k);
    RuleChain.FailsIff(chain, rules);
  }

  lemma {:induction false} TwiceTheOverride(tunnel: string, allowLan: bool, peer: Client<nat>)
    requires peer.allowLan == Some(!allowLan)
    ensures var own := PrivateRules(tunnel, Some(peer.id), PRIVATE_IPV4, !allowLan);
            ClientRules(true, tunnel, allowLan, [peer, peer]) == own + own
  {
    var own := PrivateRules(tunnel, Some(peer.id), PRIVATE_IPV4, !allowLan);
    assert [peer, peer][..1] == [peer] && [peer][..0] == [];
    assert ClientRules(true, tunnel, allowLan, [peer]) == own;
  }

  lemma {:induction false} Elements(s: seq<FirewallRule>, part: set<FirewallRule>)
    requires forall r <- part :: r in s
    ensures |part| <= |s|
  {
    if s == [] {
      assert part == {};
    } else {
      assert s == s[..|s| - 1] + [s[|s| - 1]];
      Elements(s[..|s| - 1], part - {s[|s| - 1]});
    }
  }

  lemma {:induction false} InputRulesDistinct(tunnel: string, allowLan: bool, peers: seq<Client<nat>>)
    requires DistinctClients(peers)
    ensures NoRepeats(InputRules(true, tunnel, allowLan, peers))
  {
    hide ClientRules, PRIVATE_IPV4;
    ClientRulesShape(tunnel, allowLan, peers);
    PrivateRulesDistinct(tunnel, None, false);
    DistinctConcat(ClientRules(true, tunnel, allowLan, peers), GlobalRules(tunnel, allowLan));
  }
}
