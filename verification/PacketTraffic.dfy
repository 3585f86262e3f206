/** Draining the packet device: one dump of all peers, differenced per public key. */
module PacketTraffic {
  import opened Wrappers
  import opened Traffic

  /** A line of the device's dump. */
  datatype Line = PublicKey(value: string) | RxBytes(count: nat) | TxBytes(count: nat) | Other

  datatype Block = Block(key: string, traffic: Bytes)

  /** What a dump says about each peer; the first block belongs to the device itself. */
  function Blocks(lines: seq<Line>): (r: seq<Block>)
    ensures |r| > 0
  {
    if lines == [] then [Block("", ZERO)]
    else
      var front := Blocks(lines[..|lines| - 1]);
      var done, current := front[..|front| - 1], front[|front| - 1];
      match lines[|lines| - 1]
      case PublicKey(key) => front + [Block(key, ZERO)]
      case RxBytes(count) => done + [Block(current.key, Bytes(count, current.traffic.tx))]
      case TxBytes(count) => done + [Block(current.key, Bytes(current.traffic.rx, count))]
      case Other => front
  }

  // ----- What a dump says

  ghost predicate LastRx(lines: seq<Line>, from: nat, count: nat) {
    || (count == 0 && forall i :: from <= i < |lines| ==> !lines[i].RxBytes?)
    || exists i :: from <= i < |lines| && lines[i] == RxBytes(count)
                   && forall j :: i < j < |lines| ==> !lines[j].RxBytes?
  }

  ghost predicate LastTx(lines: seq<Line>, from: nat, count: nat) {
    || (count == 0 && forall i :: from <= i < |lines| ==> !lines[i].TxBytes?)
    || exists i :: from <= i < |lines| && lines[i] == TxBytes(count)
                   && forall j :: i < j < |lines| ==> !lines[j].TxBytes?
  }

  /** The block tells the last received and sent bytes of these lines from `from` on, where its key stands just before,
      and no other key behind. */
  ghost predicate Tells(lines: seq<Line>, from: nat, b: Block) {
    && from <= |lines| && (forall i :: from <= i < |lines| ==> !lines[i].PublicKey?)
    && (if from == 0 then b.key == "" else lines[from - 1] == PublicKey(b.key))
    && LastRx(lines, from, b.traffic.rx) && LastTx(lines, from, b.traffic.tx)
  }

  function KeyCount(lines: seq<Line>): nat {
    if lines == [] then 0
    else KeyCount(lines[..|lines| - 1]) + if lines[|lines| - 1].PublicKey? then 1 else 0
  }

  lemma {:induction false} TellsMore(lines: seq<Line>, from: nat, b: Block, line: Line)
    requires Tells(lines, from, b) && !line.PublicKey?
    ensures Tells(lines + [line], from, Block(b.key, Bytes(if line.RxBytes? then line.count else b.traffic.rx,
                                                           if line.TxBytes? then line.count else b.traffic.tx)))
  {
    var more := lines + [line];
    assert more[|lines|] == line && forall i :: 0 <= i < |lines| ==> more[i] == lines[i];
    if !line.RxBytes? && !(b.traffic.rx == 0 && forall i :: from <= i < |lines| ==> !lines[i].RxBytes?) {
      var i :| from <= i < |lines| && lines[i] == RxBytes(b.traffic.rx)
               && forall j :: i < j < |lines| ==> !lines[j].RxBytes?;
      assert more[i] == RxBytes(b.traffic.rx);
    }
    if !line.TxBytes? && !(b.traffic.tx == 0 && forall i :: from <= i < |lines| ==> !lines[i].TxBytes?) {
      var i :| from <= i < |lines| && lines[i] == TxBytes(b.traffic.tx)
               && forall j :: i < j < |lines| ==> !lines[j].TxBytes?;
      assert more[i] == TxBytes(b.traffic.tx);
    }
  }

  /** The dump has a block for the device and one for every key, in order; block `k` tells what stands between the
      `k`-th key and the next one. */
  lemma {:induction false} BlockTells(lines: seq<Line>, k: nat) returns (from: nat, to: nat)
    requires k < |Blocks(lines)|
    ensures |Blocks(lines)| == KeyCount(lines) + 1
    ensures from <= to <= |lines| && Tells(lines[..to], from, Blocks(lines)[k]) && KeyCount(lines[..from]) == k
    ensures if k == KeyCount(lines) then to == |lines| else to < |lines| && lines[to].PublicKey?
  {
    if lines == [] {
      from, to := 0, 0;
    } else {
      var n := |lines| - 1;
      var front, line := lines[..n], lines[n];
      var blocks := Blocks(front);
      assert front + [line] == lines && lines[..|lines|] == lines;
      if k < |blocks| {
        from, to := BlockTells(front, k);
        assert front[..to] == lines[..to] && front[..from] == lines[..from];
        if k == |blocks| - 1 && !line.PublicKey? {
          TellsMore(front, from, blocks[k], line);
          to := |lines|;
        }
      } else {
        var _, _ := BlockTells(front, 0);
        from, to := |lines|, |lines|;
      }
    }
  }

  datatype Tally = Tally(last: map<string, Bytes>, result: map<string, Bytes>)

  function ClientOf(clients: map<string, string>, key: string): string {
    if key in clients then clients[key] else ""
  }

  function Flush(clients: map<string, string>, t: Tally, b: Block): Tally {
    var id := ClientOf(clients, b.key);
    if id == "" then t
    else
      var delta := Delta(b.traffic, Get(t.last, b.key));
      Tally(t.last[b.key := b.traffic], if delta != ZERO then t.result[id := delta] else t.result)
  }

  function FlushAll(clients: map<string, string>, t: Tally, blocks: seq<Block>): Tally {
    if blocks == [] then t else Flush(clients, FlushAll(clients, t, blocks[..|blocks| - 1]), blocks[|blocks| - 1])
  }

  function Merge(a: map<string, Bytes>, b: map<string, Bytes>): map<string, Bytes> {
    map id | id in a.Keys + b.Keys :: Get(a, id).Plus(Get(b, id))
  }

  lemma {:induction false} FlushStep(clients: map<string, string>, t: Tally, lines: seq<Line>, i: nat)
    requires i < |lines|
    ensures var now, next := Blocks(lines[..i]), Blocks(lines[..i + 1]);
            var n := |now| - 1;
            && (lines[i].PublicKey? ==>
                  && next == now + [Block(lines[i].value, ZERO)]
                  && FlushAll(clients, t, next[..n + 1]) == Flush(clients, FlushAll(clients, t, now[..n]), now[n]))
            && (!lines[i].PublicKey? ==> |next| == n + 1 && next[..n] == now[..n])
  {
    assert lines[..i + 1][..i] == lines[..i];
    var now := Blocks(lines[..i]);
    if lines[i].PublicKey? {
      assert (now + [Block(lines[i].value, ZERO)])[..|now|] == now;
    }
  }

  /** A peer as the server configuration has it, one for each client. */
  datatype Peer = Peer(key: string, clientId: string)

  function ClientMap(peers: seq<Peer>): map<string, string> {
    if peers == [] then map[]
    else ClientMap(peers[..|peers| - 1])[peers[|peers| - 1].key := peers[|peers| - 1].clientId]
  }

  class PacketRuntime {
    const peerClients: map<string, string>
    var lastTraffic: map<string, Bytes>
    const ordinary: Option<OrdinaryRuntime>

    constructor (peers: seq<Peer>, ordinary: Option<OrdinaryRuntime>)
      ensures peerClients == ClientMap(peers) && this.ordinary == ordinary && lastTraffic == map[]
    {
      var clients: map<string, string> := map[];
      for i := 0 to |peers|
        invariant clients == ClientMap(peers[..i])
      {
        assert peers[..i + 1][..i] == peers[..i];
        clients := clients[peers[i].key := peers[i].clientId];
      }
      assert peers[..|peers|] == peers;
      this.peerClients, this.ordinary, lastTraffic := clients, ordinary, map[];
    }

    method FlushBlock(b: Block, result: map<string, Bytes>) returns (r: map<string, Bytes>)
      modifies this
      ensures Tally(lastTraffic, r) == Flush(peerClients, Tally(old(lastTraffic), result), b)
    {
      r := result;
      var id := ClientOf(peerClients, b.key);
      if id != "" {
        var delta := Delta(b.traffic, Get(lastTraffic, b.key));
        if delta.rx != 0 || delta.tx != 0 {
          r := r[id := delta];
        }
        lastTraffic := lastTraffic[b.key := b.traffic];
      }
    }

    method ReadDump(lines: seq<Line>) returns (result: map<string, Bytes>)
      modifies this
      ensures Tally(lastTraffic, result) == FlushAll(peerClients, Tally(old(lastTraffic), map[]), Blocks(lines))
    {
      hide Flush;
      ghost var start := Tally(lastTraffic, map[]);
      var publicKey, traffic := "", ZERO;
      result := map[];
      for i := 0 to |lines|
        invariant var blocks := Blocks(lines[..i]);
                  && blocks[|blocks| - 1] == Block(publicKey, traffic)
                  && Tally(lastTraffic, result) == FlushAll(peerClients, start, blocks[..|blocks| - 1])
      {
        FlushStep(peerClients, start, lines, i);
        assert lines[..i + 1][..i] == lines[..i];
        match lines[i] {
          case PublicKey(key) =>
            result := FlushBlock(Block(publicKey, traffic), result);
            publicKey, traffic := key, ZERO;
          case RxBytes(count) => traffic := Bytes(count, traffic.tx);
          case TxBytes(count) => traffic := Bytes(traffic.rx, count);
          case Other =>
        }
      }
      assert lines[..|lines|] == lines;
      result := FlushBlock(Block(publicKey, traffic), result);
    }

    /** `dump` is None when there is no device or it cannot be read: then nothing is drained. */
    method DrainTraffic(dump: Option<seq<Line>>) returns (result: map<string, Bytes>)
      modifies this, if ordinary.Some? then {ordinary.value} else {}
      ensures dump.None? ==> result == map[] && lastTraffic == old(lastTraffic)
      ensures dump.None? && ordinary.Some? ==> ordinary.value.View() == old(ordinary.value.View())
      ensures dump.Some? ==>
                var t := FlushAll(peerClients, Tally(old(lastTraffic), map[]), Blocks(dump.value));
                && lastTraffic == t.last
                && result == Merge(t.result, if ordinary.Some? then old(ordinary.value.pending) else map[])
      ensures dump.Some? && ordinary.Some? ==>
                ordinary.value.View() == Books(old(ordinary.value.lastConnection), map[])
    {
      hide FlushAll, Blocks;
      if dump.None? {
        return map[];
      }
      result := ReadDump(dump.value);
      ghost var read := result;
      if ordinary.Some? {
        var more := ordinary.value.DrainTraffic();
        result := AddAll(result, more);
      } else {
        assert Merge(read, map[]) == read;
      }
    }
  }

  /** The keys still in `rest` not yet added. */
  ghost predicate Partly(r: map<string, Bytes>, result: map<string, Bytes>, more: map<string, Bytes>,
          rest: set<string>) {
    && r.Keys == result.Keys + (more.Keys - rest)
    && forall id <- r :: r[id] == if id in more.Keys - rest then Get(result, id).Plus(more[id]) else Get(result, id)
  }

  lemma {:induction false} PartlyStep(r: map<string, Bytes>, result: map<string, Bytes>, more: map<string, Bytes>,
          rest: set<string>, id: string)
    requires id in rest && rest <= more.Keys && Partly(r, result, more, rest)
    ensures Partly(r[id := Get(r, id).Plus(more[id])], result, more, rest - {id})
  {
    hide Bytes.Plus;
    assert Get(r, id) == Get(result, id);
  }

  lemma {:induction false} PartlyDone(r: map<string, Bytes>, result: map<string, Bytes>, more: map<string, Bytes>)
    requires Partly(r, result, more, {})
    ensures r == Merge(result, more)
  {
    hide Bytes.Plus;
    forall id | id in r
      ensures r[id] == Get(result, id).Plus(Get(more, id))
    {
      PlusZero(Get(result, id));
    }
  }

  method AddAll(result: map<string, Bytes>, more: map<string, Bytes>) returns (r: map<string, Bytes>)
    ensures r == Merge(result, more)
  {
    hide Bytes.Plus;
    r := result;
    var rest := more.Keys;
    while rest != {}
      invariant rest <= more.Keys && Partly(r, result, more, rest)
      decreases |rest|
    {
      hide Partly;
      var id :| id in rest;
      PartlyStep(r, result, more, rest, id);
      r := r[id := Get(r, id).Plus(more[id])];
      rest := rest - {id};
    }
    PartlyDone(r, result, more);
  }

  // ----- Over a run of drains

  /** What one drain read from the device and took over from the proxy core. */
  datatype Drain = Drain(blocks: seq<Block>, ordinary: map<string, Bytes>)

  /** The readings on file and what clients were given so far. */
  function DrainAll(clients: map<string, string>, drains: seq<Drain>): Tally {
    if drains == [] then Tally(map[], map[])
    else
      var before := DrainAll(clients, drains[..|drains| - 1]);
      var d := drains[|drains| - 1];
      var t := FlushAll(clients, Tally(before.last, map[]), d.blocks);
      Tally(t.last, Merge(before.result, Merge(t.result, d.ordinary)))
  }

  /** All readings of one peer, over the blocks of one dump, and over a run. */
  function Reading(blocks: seq<Block>, key: string): seq<Bytes> {
    if blocks == [] then []
    else
      var n := |blocks| - 1;
      Reading(blocks[..n], key) + if blocks[n].key == key then [blocks[n].traffic] else []
  }

  function Readings(drains: seq<Drain>, key: string): seq<Bytes> {
    if drains == [] then [] else Readings(drains[..|drains| - 1], key) + Reading(drains[|drains| - 1].blocks, key)
  }

  function OrdinaryTotal(drains: seq<Drain>, id: string): Bytes {
    if drains == [] then ZERO
        else OrdinaryTotal(drains[..|drains| - 1], id).Plus(Get(drains[|drains| - 1].ordinary, id))
  }

  /** `key` is the only peer of client `id`. */
  ghost predicate OnlyPeer(clients: map<string, string>, key: string, id: string) {
    && id != "" && key in clients && clients[key] == id
    && forall other <- clients :: clients[other] == id ==> other == key
  }

  ghost predicate EachDumpOnce(drains: seq<Drain>, key: string) {
    forall d <- drains :: |Reading(d.blocks, key)| <= 1
  }

  lemma {:induction false} FlushReadsOnce(clients: map<string, string>, last: map<string, Bytes>, blocks: seq<Block>,
          key: string, id: string)
    requires OnlyPeer(clients, key, id) && |Reading(blocks, key)| <= 1
    ensures var t, r := FlushAll(clients, Tally(last, map[]), blocks), Reading(blocks, key);
            && Get(t.last, key) == (if r == [] then Get(last, key) else r[0])
            && Get(t.result, id) == if r == [] then ZERO else Delta(r[0], Get(last, key))
  {
    hide Delta;
    if blocks != [] {
      FlushReadsOnce(clients, last, blocks[..|blocks| - 1], key, id);
    }
  }

  /** Draining neither loses nor repeats bytes: what a client was given is, per direction, its peer's
      counter before each restart plus the counter's last value, plus what the proxy core drained. */
  lemma {:induction false} DrainingIsExact(clients: map<string, string>, drains: seq<Drain>, key: string, id: string)
    requires OnlyPeer(clients, key, id) && EachDumpOnce(drains, key)
    ensures var t, r := DrainAll(clients, drains), Readings(drains, key);
            && Get(t.last, key) == Last(r)
            && Get(t.result, id) == Bytes(PeakSum(Rx(r)), PeakSum(Tx(r))).Plus(OrdinaryTotal(drains, id))
  {
    DrainingCredits(clients, drains, key, id);
    CreditIsPeakSum(Readings(drains, key));
  }

  lemma {:induction false} DrainingCredits(clients: map<string, string>, drains: seq<Drain>, key: string, id: string)
    requires OnlyPeer(clients, key, id) && EachDumpOnce(drains, key)
    ensures var t, r := DrainAll(clients, drains), Readings(drains, key);
            && Get(t.last, key) == Last(r)
            && Get(t.result, id) == Credit(r).Plus(OrdinaryTotal(drains, id))
  {
    hide OnlyPeer, FlushAll, Reading, Delta, Credit, Bytes.Plus;
    if drains == [] {
      NoCredit();
      PlusNothing(ZERO, ZERO);
    } else {
      var front, d := drains[..|drains| - 1], drains[|drains| - 1];
      assert d in drains && forall e <- front :: e in drains;
      DrainingCredits(clients, front, key, id);
      FlushReadsOnce(clients, DrainAll(clients, front).last, d.blocks, key, id);
      var r := Reading(d.blocks, key);
      if r != [] {
        assert r == [r[0]];
        CreditStep(Readings(front, key), r[0]);
        PlusExchange(Credit(Readings(front, key)), OrdinaryTotal(front, id), Delta(r[0], Last(Readings(front, key))),
            Get(d.ordinary, id));
      } else {
        assert Readings(front, key) + r == Readings(front, key);
        PlusExchange(Credit(Readings(front, key)), OrdinaryTotal(front, id), ZERO, Get(d.ordinary, id));
        PlusZero(Credit(Readings(front, key)));
      }
      var t := FlushAll(clients, Tally(DrainAll(clients, front).last, map[]), d.blocks);
      GetMerge(t.result, d.ordinary, id);
      GetMerge(DrainAll(clients, front).result, Merge(t.result, d.ordinary), id);
    }
  }

  lemma {:induction false} PlusExchange(a: Bytes, b: Bytes, c: Bytes, d: Bytes)
    ensures a.Plus(b).Plus(c.Plus(d)) == a.Plus(c).Plus(b.Plus(d))
  {
  }

  lemma {:induction false} GetMerge(a: map<string, Bytes>, b: map<string, Bytes>, id: string)
    ensures Get(Merge(a, b), id) == Get(a, id).Plus(Get(b, id))
  {
    hide Bytes.Plus;
    PlusNothing(ZERO, ZERO);
  }

  // ----- The peers of a validated configuration

  /** Client IDs are not empty and not repeated. */
  ghost predicate ValidPeers(peers: seq<Peer>) {
    && (forall p <- peers :: p.clientId != "")
    && (forall i, j :: 0 <= i < j < |peers| ==> peers[i].clientId != peers[j].clientId)
  }

  /** The peer a key stands for, the last one that has it. */
  lemma {:induction false} ClientMapIs(peers: seq<Peer>)
    ensures forall key <- ClientMap(peers) :: exists i ::
              Holds(peers, i, key) && ClientMap(peers)[key] == peers[i].clientId
    ensures forall i, key :: Holds(peers, i, key) ==>
              key in ClientMap(peers) && ClientMap(peers)[key] == peers[i].clientId
  {
    if peers != [] {
      var n := |peers| - 1;
      var front := peers[..n];
      ClientMapIs(front);
      assert Holds(peers, n, peers[n].key);
      assert forall i, key :: key != peers[n].key ==> (Holds(peers, i, key) <==> Holds(front, i, key));
    }
  }

  ghost predicate Holds(peers: seq<Peer>, i: int, key: string) {
    0 <= i < |peers| && peers[i].key == key && forall j :: i < j < |peers| ==> peers[j].key != key
  }

  /** A client whose key no later peer has is the only one with that key, and it has no other. */
  lemma {:induction false} PeersAreOnly(peers: seq<Peer>, i: nat)
    requires ValidPeers(peers) && i < |peers|
    ensures Holds(peers, i, peers[i].key) ==> OnlyPeer(ClientMap(peers), peers[i].key, peers[i].clientId)
    ensures !Holds(peers, i, peers[i].key) ==> forall key <- ClientMap(peers) ::
              ClientMap(peers)[key] != peers[i].clientId
  {
    ClientMapIs(peers);
    hide ClientMap;
    assert peers[i] in peers;
  }

  lemma {:induction false} FlushForOthers(clients: map<string, string>, last: map<string, Bytes>, blocks: seq<Block>,
          id: string)
    requires id != "" && forall key <- clients :: clients[key] != id
    ensures id !in FlushAll(clients, Tally(last, map[]), blocks).result
  {
    hide Delta;
    if blocks != [] {
      FlushForOthers(clients, last, blocks[..|blocks| - 1], id);
    }
  }

  lemma {:induction false} NoPeerNoCredit(clients: map<string, string>, drains: seq<Drain>, id: string)
    requires id != "" && forall key <- clients :: clients[key] != id
    ensures Get(DrainAll(clients, drains).result, id) == OrdinaryTotal(drains, id)
  {
    hide FlushAll, Bytes.Plus;
    if drains != [] {
      var front, d := drains[..|drains| - 1], drains[|drains| - 1];
      NoPeerNoCredit(clients, front, id);
      FlushForOthers(clients, DrainAll(clients, front).last, d.blocks, id);
      var t := FlushAll(clients, Tally(DrainAll(clients, front).last, map[]), d.blocks);
      GetMerge(t.result, d.ordinary, id);
      GetMerge(DrainAll(clients, front).result, Merge(t.result, d.ordinary), id);
      PlusNothing(ZERO, Get(d.ordinary, id));
    }
  }

  /** For every client of a validated configuration: it is given exactly its peer's bytes and those of the proxy core,
      or only the latter if a later client has the same key. */
  lemma {:induction false} ClientsAreGivenTheirBytes(peers: seq<Peer>, drains: seq<Drain>, i: nat)
    requires ValidPeers(peers) && i < |peers| && EachDumpOnce(drains, peers[i].key)
    ensures var r := Readings(drains, peers[i].key);
            Get(DrainAll(ClientMap(peers), drains).result, peers[i].clientId) ==
            (if Holds(peers, i, peers[i].key) then Bytes(PeakSum(Rx(r)), PeakSum(Tx(r))) else ZERO)
            .Plus(OrdinaryTotal(drains, peers[i].clientId))
  {
    hide Bytes.Plus, PeakSum, Rx, Tx, DrainAll, Readings, OnlyPeer, EachDumpOnce, OrdinaryTotal;
    PeersAreOnly(peers, i);
    assert peers[i] in peers;
    if Holds(peers, i, peers[i].key) {
      DrainingIsExact(ClientMap(peers), drains, peers[i].key, peers[i].clientId);
    } else {
      NoPeerNoCredit(ClientMap(peers), drains, peers[i].clientId);
      PlusNothing(ZERO, OrdinaryTotal(drains, peers[i].clientId));
    }
  }

  /** That clients have one peer each matters: of two peers of one client in one dump the later one is given alone. */
  lemma {:induction false} TwoPeersOfOneClientLoseBytes(clients: map<string, string>, id: string, one: Block,
          other: Block)
    requires id != "" && ClientOf(clients, one.key) == id == ClientOf(clients, other.key) && one.key != other.key
    requires one.traffic != ZERO && other.traffic != ZERO
    ensures Get(FlushAll(clients, Tally(map[], map[]), [one, other]).result, id) == other.traffic
  {
    var none := Tally(map[], map[]);
    assert [one, other][..1] == [one];
    FlushOne(clients, none, one);
  }

  lemma {:induction false} FlushOne(clients: map<string, string>, t: Tally, b: Block)
    ensures FlushAll(clients, t, [b]) == Flush(clients, t, b)
  {
    assert [b][..0] == [];
  }
}
