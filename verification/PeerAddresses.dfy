/** Giving every client of the packet tunnel an address of its own. */
module PeerAddresses {
  import opened Wrappers
  import opened LanPolicy

  const SERVER := V4(10, 77, 0, 1)

  /** The addresses found in a client's tunnel configuration, or none if it has no tunnel yet. */
  type Tunnel = Option<seq<nat>>

  const POOL_SIZE := 64_768

  /** The pool in order of allocation: 10.77.t.f with f from 2 to 254. */
  function Nth(k: nat): nat {
    V4(10, 77, k / 253, 2 + k % 253)
  }

  ghost function Used(clients: seq<Tunnel>): set<nat> {
    {SERVER} + set c, a | c in clients && c.Some? && a in c.value :: a
  }

  method CollectUsed(clients: seq<Tunnel>) returns (used: set<nat>)
    ensures used == Used(clients)
  {
    used := {SERVER};
    for i := 0 to |clients|
      invariant used == Used(clients[..i])
    {
      assert clients[..i + 1] == clients[..i] + [clients[i]];
      if clients[i].Some? {
        used := used + set a | a in clients[i].value;
      }
      assert used == Used(clients[..i + 1]);
    }
    assert clients[..|clients|] == clients;
  }

  /** The first unused address of the pool; none only if all are used. */
  method NextPacketClientAddress(clients: seq<Tunnel>) returns (r: Option<nat>)
    ensures r.Some? ==> exists k: nat :: k < POOL_SIZE && r.value == Nth(k) && Nth(k) !in Used(clients)
                                         && forall i: nat :: i < k ==> Nth(i) in Used(clients)
    ensures r.None? <==> forall k: nat :: k < POOL_SIZE ==> Nth(k) in Used(clients)
  {
    var used := CollectUsed(clients);
    for third := 0 to 256
      invariant forall i: nat :: i < third * 253 ==> Nth(i) in used
    {
      for fourth := 2 to 255
        invariant forall i: nat :: i < third * 253 + (fourth - 2) ==> Nth(i) in used
      {
        var candidate := V4(10, 77, third, fourth);
        assert candidate == Nth(third * 253 + (fourth - 2));
        if candidate !in used {
          return Some(candidate);
        }
      }
    }
    return None;
  }

  /** The pool is 10.77.0.0/16 without the addresses that end in 0, 1 or 255. */
  lemma {:induction false} PoolIs(a: nat)
    ensures (exists k: nat :: k < POOL_SIZE && Nth(k) == a) <==> a / 65_536 == 10 * 256 + 77 && 2 <= a % 256 <= 254
    ensures SERVER == (10 * 256 + 77) * 65_536 + 1
  {
    if a / 65_536 == 10 * 256 + 77 && 2 <= a % 256 <= 254 {
      var k := NthOf((a / 256) % 256, a % 256);
      assert a == V4(10, 77, (a / 256) % 256, a % 256);
    }
    if k: nat :| k < POOL_SIZE && Nth(k) == a {
      NthParts(k);
    }
  }

  lemma {:induction false} NthOf(third: nat, fourth: nat) returns (k: nat)
    requires third < 256 && 2 <= fourth <= 254
    ensures k < POOL_SIZE && Nth(k) == V4(10, 77, third, fourth)
  {
    k := third * 253 + (fourth - 2);
    assert k / 253 == third && k % 253 == fourth - 2;
  }

  lemma {:induction false} NthParts(k: nat)
    requires k < POOL_SIZE
    ensures Nth(k) / 65_536 == 10 * 256 + 77 && 2 <= Nth(k) % 256 <= 254
  {
    var third, fourth := k / 253, 2 + k % 253;
    assert Nth(k) == (10 * 256 + 77) * 65_536 + third * 256 + fourth && third < 256;
  }

  lemma {:induction false} NthDiffer(i: nat, j: nat)
    requires i < j < POOL_SIZE
    ensures Nth(i) != Nth(j)
  {
  }

  ghost function Pool(n: nat): set<nat> {
    set k | 0 <= k < n :: Nth(k)
  }

  lemma {:induction false} PoolCount(n: nat)
    requires n <= POOL_SIZE
    ensures |Pool(n)| == n
  {
    if n > 0 {
      PoolCount(n - 1);
      forall k | 0 <= k < n - 1
        ensures Nth(k) != Nth(n - 1)
      {
        NthDiffer(k, n - 1);
      }
      hide Nth;
      assert Pool(n) == Pool(n - 1) + {Nth(n - 1)};
    } else {
      assert Pool(0) == {};
    }
  }

  /** Running out means that all 64768 addresses are taken. */
  lemma {:induction false} ExhaustedMeansAllTaken(clients: seq<Tunnel>)
    requires forall k: nat :: k < POOL_SIZE ==> Nth(k) in Used(clients)
    ensures |Used(clients)| >= POOL_SIZE
  {
    PoolCount(POOL_SIZE);
    assert Pool(POOL_SIZE) <= Used(clients);
    SubsetCount(Pool(POOL_SIZE), Used(clients));
  }

  lemma {:induction false} SubsetCount(a: set<nat>, b: set<nat>)
    requires a <= b
    ensures |a| <= |b|
  {
    if a != {} {
      var x :| x in a;
      SubsetCount(a - {x}, b - {x});
    }
  }

  /** No address belongs to two clients, and none to the server. */
  ghost predicate Distinct(clients: seq<Tunnel>) {
    && (forall i, j, a :: 0 <= i < j < |clients| && clients[i].Some? && clients[j].Some? && a in clients[i].value ==>
          a !in clients[j].value)
    && (forall i :: 0 <= i < |clients| && clients[i].Some? ==> SERVER !in clients[i].value)
  }

  datatype AttachError = KeyFault | Exhausted | ProfileFault

  class Config {
    var clients: seq<Tunnel>

    constructor (clients: seq<Tunnel>)
      ensures this.clients == clients
    {
      this.clients := clients;
    }

    /** Attach a tunnel to every client that has none. `keys` tells whether keys can be had for the client's tunnel,
        `profiles` whether its profile is accepted with it; the first fault ends the loop, and a rejected profile
        keeps its tunnel. `before` tells whether the configuration was changed already. */
    method EnsureIdentity(before: bool, keys: nat -> bool, profiles: nat -> bool)
      returns (changed: bool, error: Option<AttachError>)
      modifies this
      ensures |clients| == |old(clients)|
      ensures forall i :: 0 <= i < |clients| && old(clients)[i].Some? ==> clients[i] == old(clients)[i]
      ensures Distinct(old(clients)) ==> Distinct(clients)
      ensures error.None? ==>
                && (forall i :: 0 <= i < |clients| ==> clients[i].Some?)
                && (forall i: nat :: i < |clients| && old(clients)[i].None? ==> keys(i) && profiles(i))
                && (changed <==> before || clients != old(clients))
      ensures error.Some? ==> !changed
      ensures error == Some(Exhausted) ==> forall k: nat :: k < POOL_SIZE ==> Nth(k) in Used(clients)
      ensures error == Some(KeyFault) ==> exists i: nat :: i < |clients| && clients[i].None? && !keys(i)
      ensures error == Some(ProfileFault) ==>
                exists i: nat :: i < |clients| && old(clients)[i].None? && clients[i].Some? && !profiles(i)
    {
      changed := before;
      for index := 0 to |clients|
        invariant |clients| == |old(clients)|
        invariant forall i :: index <= i < |clients| ==> clients[i] == old(clients)[i]
        invariant forall i :: 0 <= i < index ==> clients[i].Some?
        invariant forall i :: 0 <= i < |clients| && old(clients)[i].Some? ==> clients[i] == old(clients)[i]
        invariant forall i: nat :: i < index && old(clients)[i].None? ==> keys(i) && profiles(i)
        invariant Distinct(old(clients)) ==> Distinct(clients)
        invariant changed <==> before || clients != old(clients)
      {
        if clients[index].Some? {
          continue;
        }
        if !keys(index) {
          return false, Some(KeyFault);
        }
        var address := NextPacketClientAddress(clients);
        if address.None? {
          return false, Some(Exhausted);
        }
        if Distinct(clients) {
          AttachKeepsDistinct(clients, index, address.value);
        }
        assert old(clients)[index].None?;
        clients := clients[index := Some([address.value])];
        if !profiles(index) {
          return false, Some(ProfileFault);
        }
        changed := true;
      }
      return changed, None;
    }
  }

  lemma {:induction false} AttachKeepsDistinct(clients: seq<Tunnel>, index: nat, address: nat)
    requires Distinct(clients) && index < |clients| && clients[index].None? && address !in Used(clients)
    ensures Distinct(clients[index := Some([address])])
  {
    forall i | 0 <= i < |clients| && clients[i].Some?
      ensures address !in clients[i].value
    {
      assert clients[i] in clients;
    }
  }
}
