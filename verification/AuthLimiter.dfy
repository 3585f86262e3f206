/** The limiter of authentication attempts per peer. Times are nanoseconds; tokens are counted in
    nanoseconds of refill, so one attempt costs REFILL of them. */
module AuthLimiter {

  const BURST := 32
  const REFILL := 3_000_000_000
  const MAX_PEERS := 4096
  const IDLE := 300_000_000_000
  const FULL := BURST * REFILL

  datatype Bucket = Bucket(tokens: int, updated: int, inflight: int)

  datatype Table = Table(peers: map<string, Bucket>, inflight: int)

  const EMPTY := Table(map[], 0)

  datatype Answer = Admitted | Busy | TableFull | Exhausted

  function Min(a: int, b: int): int {
    if a < b then a else b
  }

  function Refilled(b: Bucket, now: int): Bucket {
    if now > b.updated then Bucket(Min(FULL, b.tokens + (now - b.updated)), now, b.inflight) else b
  }

  predicate Idle(b: Bucket, now: int) {
    b.inflight == 0 && now - b.updated >= IDLE
  }

  function Evicted(peers: map<string, Bucket>, now: int): map<string, Bucket> {
    map host | host in peers && !Idle(peers[host], now) :: peers[host]
  }

  /** Charge a bucket that is in the table: refill, then take one attempt if there is one. */
  function Charge(t: Table, host: string, b: Bucket, now: int): (Table, Answer) {
    var r := Refilled(b, now);
    if r.tokens < REFILL then (t.(peers := t.peers[host := r]), Exhausted)
    else (Table(t.peers[host := Bucket(r.tokens - REFILL, r.updated, r.inflight + 1)], t.inflight + 1), Admitted)
  }

  function Begin(t: Table, host: string, now: int): (Table, Answer) {
    if t.inflight >= BURST then (t, Busy)
    else if host in t.peers then Charge(t, host, t.peers[host], now)
    else
      var u := if |t.peers| >= MAX_PEERS then t.(peers := Evicted(t.peers, now)) else t;
      if |u.peers| >= MAX_PEERS then (u, TableFull) else Charge(u, host, Bucket(FULL, now, 0), now)
  }

  predicate NoRoom(t: Table, host: string, now: int) {
    host !in t.peers && |t.peers| >= MAX_PEERS && |Evicted(t.peers, now)| >= MAX_PEERS
  }

  /** The table once `host` has a bucket. */
  function Found(t: Table, host: string, now: int): (u: Table)
    ensures host in u.peers
  {
    if host in t.peers then t
    else
      var u := if |t.peers| >= MAX_PEERS then t.(peers := Evicted(t.peers, now)) else t;
      u.(peers := u.peers[host := Bucket(FULL, now, 0)])
  }

  /** An attempt is a lookup followed by a charge. */
  lemma {:induction false} BeginSplits(t: Table, host: string, now: int)
    ensures Begin(t, host, now) ==
            if t.inflight >= BURST then (t, Busy)
            else if NoRoom(t, host, now) then (t.(peers := Evicted(t.peers, now)), TableFull)
            else Charge(Found(t, host, now), host, Found(t, host, now).peers[host], now)
  {
    if host !in t.peers {
      var u := if |t.peers| >= MAX_PEERS then t.(peers := Evicted(t.peers, now)) else t;
      var b := Bucket(FULL, now, 0);
      var r := Refilled(b, now);
      assert u.peers[host := b][host := r] == u.peers[host := r];
      var c := Bucket(r.tokens - REFILL, r.updated, r.inflight + 1);
      assert u.peers[host := b][host := c] == u.peers[host := c];
    }
  }

  function Settled(b: Bucket, success: bool): Bucket {
    Bucket(if success then Min(FULL, b.tokens + REFILL) else b.tokens, b.updated, b.inflight - 1)
  }

  function Finish(t: Table, host: string, success: bool): Table
    requires host in t.peers
  {
    Table(t.peers[host := Settled(t.peers[host], success)], t.inflight - 1)
  }

  // ----- The limiter object of the source

  class PeerBucket {
    var tokens: int
    var updated: int
    var inflight: int

    constructor (now: int)
      ensures View() == Bucket(FULL, now, 0)
    {
      tokens, updated, inflight := FULL, now, 0;
    }

    function View(): Bucket
      reads this
    {
      Bucket(tokens, updated, inflight)
    }
  }

  class Limiter {
    var peers: map<string, PeerBucket>
    var inflight: int

    /** Different peers have different buckets. */
    ghost predicate Valid()
      reads this
    {
      forall a, b :: a in peers && b in peers && a != b ==> peers[a] != peers[b]
    }

    ghost function Buckets(): set<PeerBucket>
      reads this
    {
      peers.Values
    }

    ghost function View(): Table
      reads this, Buckets()
    {
      Table(map host | host in peers :: peers[host].View(), inflight)
    }

    constructor ()
      ensures Valid() && View() == EMPTY && peers == map[]
    {
      peers, inflight := map[], 0;
    }

    method EvictIdle(now: int)
      requires Valid()
      modifies this`peers
      ensures Valid() && peers.Values <= old(peers).Values
      ensures View() == old(View()).(peers := Evicted(old(View()).peers, now))
      ensures forall host :: host in peers ==> host in old(peers) && peers[host] == old(peers[host])
      ensures forall host :: host in old(peers) && old(peers)[host].inflight > 0 ==> host in peers
    {
      ghost var before := peers;
      var todo := peers.Keys;
      while todo != {}
        invariant todo <= before.Keys
        invariant peers.Keys <= before.Keys && forall host :: host in peers ==> peers[host] == before[host]
        invariant forall host :: host in before ==> (host in peers <==> host in todo || !Idle(before[host].View(), now))
        decreases |todo|
      {
        var peer :| peer in todo;
        todo := todo - {peer};
        if peers[peer].inflight == 0 && now - peers[peer].updated >= IDLE {
          peers := peers - {peer};
        }
      }
      forall b | b in peers.Values
        ensures b in before.Values
      {
        var host :| host in peers && peers[host] == b;
        assert before[host] == b;
      }
    }

    /** The bucket of `host`, created full if there is none; null when the table is full. */
    method Lookup(host: string, now: int) returns (bucket: PeerBucket?)
      requires Valid()
      modifies this`peers
      ensures Valid() && fresh(peers.Values - old(peers).Values)
      ensures forall h :: h in old(peers) && old(peers)[h].inflight > 0 ==> h in peers && peers[h] == old(peers)[h]
      ensures bucket != null ==>
                host in peers && peers[host] == bucket && (bucket in old(peers).Values || fresh(bucket))
      ensures bucket != null ==> View() == Found(old(View()), host, now)
      ensures bucket == null <==> NoRoom(old(View()), host, now)
      ensures bucket == null ==> View() == old(View()).(peers := Evicted(old(View()).peers, now))
    {
      hide Evicted, Idle;
      if host in peers {
        return peers[host];
      }
      assert View().peers.Keys == peers.Keys && |View().peers| == |peers.Keys|;
      if |peers| >= MAX_PEERS {
        EvictIdle(now);
        assert View().peers.Keys == peers.Keys && |View().peers| == |peers.Keys|;
        if |peers| >= MAX_PEERS {
          return null;
        }
      }
      bucket := Create(host, now);
    }

    method Create(host: string, now: int) returns (bucket: PeerBucket)
      requires Valid() && host !in peers
      modifies this`peers
      ensures Valid() && fresh(bucket) && peers == old(peers)[host := bucket]
      ensures View() == old(View()).(peers := old(View()).peers[host := Bucket(FULL, now, 0)])
    {
      bucket := new PeerBucket(now);
      peers := peers[host := bucket];
    }

    /** Refill and take one attempt, if there is one. */
    method Take(ghost host: string, bucket: PeerBucket, now: int) returns (admitted: bool)
      requires Valid() && host in peers && peers[host] == bucket
      modifies this`inflight, bucket
      ensures Valid() && View() == Charge(old(View()), host, old(bucket.View()), now).0
      ensures admitted <==> Charge(old(View()), host, old(bucket.View()), now).1.Admitted?
      ensures !admitted ==> Charge(old(View()), host, old(bucket.View()), now).1.Exhausted?
    {
      if now - bucket.updated > 0 {
        bucket.tokens := Min(FULL, bucket.tokens + (now - bucket.updated));
        bucket.updated := now;
      }
      admitted := bucket.tokens >= REFILL;
      if admitted {
        bucket.tokens := bucket.tokens - REFILL;
        bucket.inflight := bucket.inflight + 1;
        inflight := inflight + 1;
      }
      assert View().peers == old(View()).peers[host := bucket.View()];
    }

    /** Returns the bucket the attempt was charged to, which the caller settles once, or the Retry-After seconds that go
        with a refusal. */
    method Start(host: string, now: int) returns (ticket: PeerBucket?, retry: int)
      requires Valid()
      modifies this, Buckets()
      ensures Valid() && fresh(peers.Values - old(peers).Values)
      ensures var (table, answer) := Begin(old(View()), host, now);
              && View() == table && (ticket != null <==> answer.Admitted?)
              && retry == (if answer.Admitted? then 0 else if answer.Busy? then 1 else 3)
      ensures ticket != null ==> host in peers && peers[host] == ticket
      ensures forall h :: h in old(peers) && old(peers[h].inflight) > 0 ==> h in peers && peers[h] == old(peers)[h]
    {
      hide Charge, Found, NoRoom, Begin, Evicted;
      BeginSplits(View(), host, now);
      if inflight >= BURST {
        return null, 1;
      }
      var bucket := Lookup(host, now);
      if bucket == null {
        return null, 3;
      }
      var admitted := Take(host, bucket, now);
      if !admitted {
        return null, 3;
      }
      return bucket, 0;
    }

    /** The closure returned by the source: settle one admitted attempt. */
    method Settle(ghost host: string, bucket: PeerBucket, success: bool)
      requires Valid() && host in peers && peers[host] == bucket
      modifies this`inflight, bucket
      ensures Valid() && View() == Finish(old(View()), host, success)
    {
      bucket.inflight := bucket.inflight - 1;
      inflight := inflight - 1;
      if success {
        bucket.tokens := Min(FULL, bucket.tokens + REFILL);
      }
      assert View().peers == old(View()).peers[host := bucket.View()];
    }
  }
}
