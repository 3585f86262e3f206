/** Traffic accounting: differencing counters, accumulating per user, draining. */
module Traffic {
  import opened Seqs

  datatype Bytes = Bytes(rx: nat, tx: nat) {
    function Plus(other: Bytes): Bytes {
      Bytes(rx + other.rx, tx + other.tx)
    }
  }

  const ZERO := Bytes(0, 0)

  /** A counter below its last reading was restarted. */
  function CounterDelta(current: nat, previous: nat): nat {
    if current < previous then current else current - previous
  }

  function Delta(current: Bytes, previous: Bytes): Bytes {
    Bytes(CounterDelta(current.rx, previous.rx), CounterDelta(current.tx, previous.tx))
  }

  function Get(m: map<string, Bytes>, key: string): Bytes {
    if key in m then m[key] else ZERO
  }

  // ----- One counter

  function Last(readings: seq<Bytes>): Bytes {
    if readings == [] then ZERO else readings[|readings| - 1]
  }

  /** What the differences of successive readings add up to. */
  function Credit(readings: seq<Bytes>): Bytes {
    if readings == [] then ZERO
    else
      var front := readings[..|readings| - 1];
      Credit(front).Plus(Delta(Last(readings), Last(front)))
  }

  /** The values before each drop, plus the last value. */
  function PeakSum(counter: seq<nat>): nat {
    if counter == [] then 0
    else
      var n := |counter| - 1;
      if n > 0 && counter[n] >= counter[n - 1] then PeakSum(counter[..n]) - counter[n - 1] + counter[n]
      else PeakSum(counter[..n]) + counter[n]
  }

  function Rx(readings: seq<Bytes>): (r: seq<nat>)
    ensures |r| == |readings|
  {
    seq(|readings|, i requires 0 <= i < |readings| => readings[i].rx)
  }

  function Tx(readings: seq<Bytes>): (r: seq<nat>)
    ensures |r| == |readings|
  {
    seq(|readings|, i requires 0 <= i < |readings| => readings[i].tx)
  }

  /** Differencing neither loses nor repeats bytes, even if a counter restarts. */
  lemma {:induction false} CreditIsPeakSum(readings: seq<Bytes>)
    ensures Credit(readings) == Bytes(PeakSum(Rx(readings)), PeakSum(Tx(readings)))
  {
    if readings != [] {
      var front := readings[..|readings| - 1];
      CreditIsPeakSum(front);
      assert Rx(readings)[..|readings| - 1] == Rx(front) && Tx(readings)[..|readings| - 1] == Tx(front);
    }
  }

  /** Counters that only grow, and read zero once their connection is gone for good. */
  ghost predicate Steady(readings: seq<Bytes>, gone: nat) {
    && gone <= |readings|
    && (forall i, j :: 0 <= i < j < gone ==> readings[i].rx <= readings[j].rx && readings[i].tx <= readings[j].tx)
    && (forall i :: gone <= i < |readings| ==> readings[i] == ZERO)
  }

  lemma {:induction false} SteadyCreditIsLast(readings: seq<Bytes>, gone: nat)
    requires Steady(readings, gone)
    ensures Credit(readings) == if gone == 0 then ZERO else readings[gone - 1]
  {
    if readings != [] {
      var n := |readings| - 1;
      var front := readings[..n];
      SteadyCreditIsLast(front, if gone > n then n else gone);
    }
  }

  // ----- Connections of the proxy core

  datatype Connection = Connection(id: string, user: string, upload: nat, download: nat) {
    function Counters(): Bytes {
      Bytes(upload, download)
    }
  }

  datatype Books = Books(last: map<string, Bytes>, pending: map<string, Bytes>)

  const NO_BOOKS := Books(map[], map[])

  function Record(b: Books, c: Connection): Books {
    if c.user == "" then b
    else
      var delta := Delta(c.Counters(), Get(b.last, c.id));
      Books(b.last[c.id := c.Counters()],
            if delta != ZERO then b.pending[c.user := Get(b.pending, c.user).Plus(delta)] else b.pending)
  }

  function RecordAll(b: Books, cs: seq<Connection>): Books {
    if cs == [] then b else Record(RecordAll(b, cs[..|cs| - 1]), cs[|cs| - 1])
  }

  lemma {:induction false} RecordStep(b: Books, cs: seq<Connection>, i: nat)
    requires i < |cs|
    ensures RecordAll(b, cs[..i + 1]) == Record(RecordAll(b, cs[..i]), cs[i])
    ensures cs[i].user == "" ==> RecordAll(b, cs[..i + 1]) == RecordAll(b, cs[..i])
  {
    assert cs[..i + 1][..i] == cs[..i];
  }

  function Seen(cs: seq<Connection>): set<string> {
    set c | c in cs && c.user != "" :: c.id
  }

  lemma {:induction false} SeenStep(part: seq<Connection>, cs: seq<Connection>)
    requires part <= cs
    ensures Seen([]) == {}
    ensures part != [] ==>
              Seen(part) == Seen(cs[..|part| - 1]) + (if part[|part| - 1].user == "" then {} else {part[|part| - 1].id})
  {
    if part != [] {
      assert part == cs[..|part| - 1] + [part[|part| - 1]];
    }
  }

  function Poll(b: Books, cs: seq<Connection>): Books {
    var r := RecordAll(b, cs);
    r.(last := map id | id in r.last && id in Seen(cs) :: r.last[id])
  }

  class OrdinaryRuntime {
    var lastConnection: map<string, Bytes>
    var pending: map<string, Bytes>

    function View(): Books
      reads this
    {
      Books(lastConnection, pending)
    }

    constructor ()
      ensures View() == NO_BOOKS
    {
      lastConnection, pending := map[], map[];
    }

    method Observe(connection: Connection)
      requires connection.user != ""
      modifies this
      ensures View() == Record(old(View()), connection)
    {
      var current := connection.Counters();
      var delta := Delta(current, Get(lastConnection, connection.id));
      if delta.rx != 0 || delta.tx != 0 {
        pending := pending[connection.user := Get(pending, connection.user).Plus(delta)];
      }
      lastConnection := lastConnection[connection.id := current];
    }

    /** The accounting part of one successful poll. */
    method PollTrafficOnce(connections: seq<Connection>)
      modifies this
      ensures View() == Poll(old(View()), connections)
    {
      hide Record, Seen;
      var seen: set<string> := {};
      SeenStep([], connections);
      for i := 0 to |connections|
        invariant View() == RecordAll(old(View()), connections[..i])
        invariant seen == Seen(connections[..i])
      {
        SeenStep(connections[..i + 1], connections);
        RecordStep(old(View()), connections, i);
        var connection := connections[i];
        if connection.user == "" {
          continue;
        }
        seen := seen + {connection.id};
        Observe(connection);
      }
      assert connections[..|connections|] == connections;
      lastConnection := map id | id in lastConnection && id in seen :: lastConnection[id];
    }

    method DrainTraffic() returns (drained: map<string, Bytes>)
      modifies this
      ensures drained == old(pending) && pending == map[] && lastConnection == old(lastConnection)
    {
      drained := pending;
      if |pending| == 0 {
        return;
      }
      pending := map[];
    }
  }

  // ----- Over every interleaving of polls and drains

  datatype Event = Polled(connections: seq<Connection>) | Drained

  /** The books, what was drained per user, the connections in the order they appeared, and the
      readings of each, a disappearance being a reading of zero. */
  datatype Ledger = Ledger(books: Books, drained: map<string, Bytes>, ids: seq<string>,
          readings: map<string, seq<Bytes>>) {
    function Of(id: string): seq<Bytes> {
      if id in readings then readings[id] else []
    }
  }

  const NO_LEDGER := Ledger(NO_BOOKS, map[], [], map[])

  function Note(l: Ledger, c: Connection): Ledger {
    if c.user == "" then l
    else Ledger(Record(l.books, c), l.drained,
                if c.id in l.ids then l.ids else l.ids + [c.id],
                l.readings[c.id := l.Of(c.id) + [c.Counters()]])
  }

  function NoteAll(l: Ledger, cs: seq<Connection>): Ledger {
    if cs == [] then l else Note(NoteAll(l, cs[..|cs| - 1]), cs[|cs| - 1])
  }

  function Vanish(l: Ledger, seen: set<string>): Ledger {
    l.(books := l.books.(last := map id | id in l.books.last && id in seen :: l.books.last[id]),
       readings := map id | id in l.readings ::
         if id in l.books.last && id !in seen then l.readings[id] + [ZERO] else l.readings[id])
  }

  function Advance(l: Ledger, e: Event): Ledger {
    match e
    case Polled(cs) => Vanish(NoteAll(l, cs), Seen(cs))
    case Drained =>
      Ledger(l.books.(pending := map[]),
             map user | user in l.drained.Keys + l.books.pending.Keys ::
                   Get(l.drained, user).Plus(Get(l.books.pending, user)),
             l.ids, l.readings)
  }

  function After(events: seq<Event>): Ledger {
    if events == [] then NO_LEDGER else Advance(After(events[..|events| - 1]), events[|events| - 1])
  }

  lemma {:induction false} NoteAllKeepsBooks(l: Ledger, cs: seq<Connection>)
    ensures NoteAll(l, cs).books == RecordAll(l.books, cs) && NoteAll(l, cs).drained == l.drained
  {
    if cs != [] {
      NoteAllKeepsBooks(l, cs[..|cs| - 1]);
    }
  }

  /** The ledger's books are the runtime's. */
  lemma {:induction false} LedgerFollowsRuntime(l: Ledger, cs: seq<Connection>)
    ensures Advance(l, Polled(cs)).books == Poll(l.books, cs)
    ensures Advance(l, Polled(cs)).drained == l.drained
    ensures Advance(l, Drained).books == Books(l.books.last, map[])
  {
    NoteAllKeepsBooks(l, cs);
  }

  /** What the connections of `user` were credited. */
  function Total(ids: seq<string>, credits: map<string, Bytes>, owner: map<string, string>, user: string): Bytes {
    if ids == [] then ZERO
    else
      var n := |ids| - 1;
      var share := if ids[n] in owner && owner[ids[n]] == user then Get(credits, ids[n]) else ZERO;
      Total(ids[..n], credits, owner, user).Plus(share)
  }

  function Credits(l: Ledger): map<string, Bytes> {
    map id | id in l.readings :: Credit(l.readings[id])
  }

  lemma {:induction false} TotalElsewhere(ids: seq<string>, credits: map<string, Bytes>, owner: map<string, string>,
          user: string, id: string, credit: Bytes)
    requires id !in ids
    ensures Total(ids, credits[id := credit], owner, user) == Total(ids, credits, owner, user)
  {
    if ids != [] {
      TotalElsewhere(ids[..|ids| - 1], credits, owner, user, id, credit);
    }
  }

  /** Crediting one more connection, or one of them more. */
  lemma {:induction false} TotalGrows(ids: seq<string>, credits: map<string, Bytes>, owner: map<string, string>,
          user: string, id: string, more: Bytes)
    requires NoRepeats(ids) && id in ids
    ensures Total(ids, credits[id := Get(credits, id).Plus(more)], owner, user)
         == Total(ids, credits, owner, user).Plus(if id in owner && owner[id] == user then more else ZERO)
  {
    var n := |ids| - 1;
    if ids[n] == id {
      TotalElsewhere(ids[..n], credits, owner, user, id, Get(credits, id).Plus(more));
    } else {
      assert id in ids[..n];
      TotalGrows(ids[..n], credits, owner, user, id, more);
    }
  }

  /** The last readings are the ones on file. */
  ghost predicate Consistent(l: Ledger) {
    && NoRepeats(l.ids)
    && (forall id :: id in l.ids <==> id in l.readings)
    && (forall id :: Last(l.Of(id)) == Get(l.books.last, id))
    && (forall id <- l.books.last :: id in l.readings)
  }

  /** Pending plus drained bytes of `user`. */
  function Counted(l: Ledger, user: string): Bytes {
    Get(l.books.pending, user).Plus(Get(l.drained, user))
  }

  /** They are what the user's connections were credited. */
  predicate Balanced(l: Ledger, owner: map<string, string>, user: string) {
    Counted(l, user) == Total(l.ids, Credits(l), owner, user)
  }

  ghost predicate OwnedBy(c: Connection, owner: map<string, string>) {
    c.user != "" ==> c.id in owner && owner[c.id] == c.user
  }

  /** A connection belongs to one user. */
  ghost predicate Owned(owner: map<string, string>, events: seq<Event>) {
    forall e <- events :: e.Polled? ==> forall c <- e.connections :: OwnedBy(c, owner)
  }

  lemma {:induction false} NoteStaysConsistent(l: Ledger, c: Connection)
    requires Consistent(l)
    ensures Consistent(Note(l, c))
  {
    if c.user != "" {
      forall id
        ensures Last(Note(l, c).Of(id)) == Get(Note(l, c).books.last, id)
      {
        assert Last(l.Of(id)) == Get(l.books.last, id);
      }
    }
  }

  lemma {:induction false} CreditStep(readings: seq<Bytes>, reading: Bytes)
    ensures Credit(readings + [reading]) == Credit(readings).Plus(Delta(reading, Last(readings)))
  {
    assert (readings + [reading])[..|readings|] == readings;
  }

  lemma {:induction false} NoteKeepsTotal(l: Ledger, owner: map<string, string>, c: Connection, user: string)
    requires Consistent(l) && c.user != "" && OwnedBy(c, owner)
    ensures var delta := Delta(c.Counters(), Get(l.books.last, c.id));
            Total(Note(l, c).ids, Credits(Note(l, c)), owner, user)
            == Total(l.ids, Credits(l), owner, user).Plus(if c.user == user then delta else ZERO)
  {
    hide Total, Delta, Credit, Record;
    var t := Note(l, c);
    var delta := Delta(c.Counters(), Get(l.books.last, c.id));
    assert Last(l.Of(c.id)) == Get(l.books.last, c.id);
    CreditStep(l.Of(c.id), c.Counters());
    NoteCredits(l, c);
    NewIdIsUncredited(l, owner, user, c.id);
    NoteStaysConsistent(l, c);
    TotalGrows(t.ids, Credits(l), owner, user, c.id, delta);
  }

  lemma {:induction false} NoteCredits(l: Ledger, c: Connection)
    requires c.user != ""
    ensures Credits(Note(l, c)) == Credits(l)[c.id := Get(Credits(l), c.id).Plus(Delta(c.Counters(), Last(l.Of(c.id))))]
  {
    hide Credit, Delta, Record, Last;
    CreditStep(l.Of(c.id), c.Counters());
    assert Get(Credits(l), c.id) == Credit(l.Of(c.id)) by {
      if c.id !in l.readings {
        NoCredit();
      }
    }
  }

  lemma {:induction false} NoCredit()
    ensures Credit([]) == ZERO
  {
  }

  lemma {:induction false} NewIdIsUncredited(l: Ledger, owner: map<string, string>, user: string, id: string)
    requires id !in l.ids ==> id !in l.readings
    ensures id !in l.ids ==> Total(l.ids + [id], Credits(l), owner, user) == Total(l.ids, Credits(l), owner, user)
  {
    assert (l.ids + [id])[..|l.ids|] == l.ids;
  }

  lemma {:induction false} NoteCounts(l: Ledger, c: Connection, user: string)
    requires c.user != ""
    ensures Counted(Note(l, c), user)
         == Counted(l, user).Plus(if c.user == user then Delta(c.Counters(), Get(l.books.last, c.id)) else ZERO)
  {
    hide Delta, Bytes.Plus;
    var delta := Delta(c.Counters(), Get(l.books.last, c.id));
    PlusSwap(Get(l.books.pending, user), delta, Get(l.drained, user));
    PlusSwap(Get(l.books.pending, user), ZERO, Get(l.drained, user));
    PlusZero(Get(l.books.pending, user));
    PlusZero(Counted(l, user));
  }

  lemma {:induction false} PlusSwap(a: Bytes, b: Bytes, c: Bytes)
    ensures a.Plus(b).Plus(c) == a.Plus(c).Plus(b)
  {
  }

  lemma {:induction false} PlusZero(a: Bytes)
    ensures a.Plus(ZERO) == a
  {
  }

  lemma {:induction false} NoteKeepsBalance(l: Ledger, owner: map<string, string>, c: Connection, user: string)
    requires Consistent(l) && Balanced(l, owner, user) && OwnedBy(c, owner)
    ensures Balanced(Note(l, c), owner, user)
  {
    hide Total, Credits, Consistent, Counted;
    if c.user != "" {
      NoteKeepsTotal(l, owner, c, user);
      NoteCounts(l, c, user);
    }
  }

  lemma {:induction false} NoteAllKeeps(l: Ledger, owner: map<string, string>, cs: seq<Connection>, user: string)
    requires Consistent(l) && Balanced(l, owner, user) && forall c <- cs :: OwnedBy(c, owner)
    ensures Consistent(NoteAll(l, cs)) && Balanced(NoteAll(l, cs), owner, user)
  {
    hide Balanced, Note, Consistent;
    if cs != [] {
      var front := NoteAll(l, cs[..|cs| - 1]);
      NoteAllKeeps(l, owner, cs[..|cs| - 1], user);
      NoteKeepsBalance(front, owner, cs[|cs| - 1], user);
      NoteStaysConsistent(front, cs[|cs| - 1]);
    }
  }

  lemma {:induction false} VanishKeeps(l: Ledger, seen: set<string>)
    requires Consistent(l)
    ensures Consistent(Vanish(l, seen)) && Credits(Vanish(l, seen)) == Credits(l)
  {
    hide Credit;
    var t := Vanish(l, seen);
    forall id | id in l.readings
      ensures Credit(t.readings[id]) == Credit(l.readings[id])
    {
      CreditStep(l.readings[id], ZERO);
    }
    forall id
      ensures Last(t.Of(id)) == Get(t.books.last, id)
    {
      assert Last(l.Of(id)) == Get(l.books.last, id);
    }
  }

  lemma {:induction false} DrainKeeps(l: Ledger, user: string)
    requires Consistent(l)
    ensures Consistent(Advance(l, Drained)) && Counted(Advance(l, Drained), user) == Counted(l, user)
  {
    var t := Advance(l, Drained);
    forall id
      ensures Last(t.Of(id)) == Get(t.books.last, id)
    {
      assert Last(l.Of(id)) == Get(l.books.last, id);
    }
  }

  /** Over every interleaving of polls and drains, pending plus drained bytes of a user are the credits
      of the user's connections. */
  lemma {:induction false} BooksBalance(events: seq<Event>, owner: map<string, string>, user: string)
    requires Owned(owner, events)
    ensures Consistent(After(events)) && Balanced(After(events), owner, user)
  {
    hide Total, NoteAll, Consistent, Credit, Counted;
    if events == [] {
      NothingBalances(NO_LEDGER, owner, user);
    } else {
      var front, e := events[..|events| - 1], events[|events| - 1];
      assert e in events && forall d <- front :: d in events;
      BooksBalance(front, owner, user);
      match e
      case Polled(cs) =>
        var noted := NoteAll(After(front), cs);
        NoteAllKeeps(After(front), owner, cs, user);
        VanishKeeps(noted, Seen(cs));
        VanishCounts(noted, Seen(cs), user);
      case Drained => DrainKeeps(After(front), user);
    }
  }

  lemma {:induction false} VanishCounts(l: Ledger, seen: set<string>, user: string)
    ensures Counted(Vanish(l, seen), user) == Counted(l, user)
  {
  }

  lemma {:induction false} NothingBalances(l: Ledger, owner: map<string, string>, user: string)
    requires |l.ids| == 0 && l.readings == map[] && l.books.last == map[] && user !in l.books.pending
    requires user !in l.drained
    ensures Consistent(l) && Balanced(l, owner, user)
  {
    hide Total, Credits, Credit, Bytes.Plus;
    NothingTotal(l.ids, Credits(l), owner, user);
    PlusNothing(Get(l.books.pending, user), Get(l.drained, user));
  }

  lemma {:induction false} PlusNothing(a: Bytes, b: Bytes)
    requires a == ZERO
    ensures a.Plus(b) == b
  {
  }

  lemma {:induction false} NothingTotal(ids: seq<string>, credits: map<string, Bytes>, owner: map<string, string>,
          user: string)
    requires |ids| == 0
    ensures Total(ids, credits, owner, user) == ZERO
  {
  }

  /** The last reading that was not zero. */
  function LastObserved(readings: seq<Bytes>): Bytes {
    if readings == [] then ZERO
    else if Last(readings) != ZERO then Last(readings)
    else LastObserved(readings[..|readings| - 1])
  }

  lemma {:induction false} SteadyLastObserved(readings: seq<Bytes>, gone: nat)
    requires Steady(readings, gone)
    ensures LastObserved(readings) == if gone == 0 then ZERO else readings[gone - 1]
  {
    if readings != [] {
      var n := |readings| - 1;
      SteadyLastObserved(readings[..n], if gone > n then n else gone);
    }
  }

  /** Counters that only grow, of connections whose IDs are not used again. */
  ghost predicate NeverReused(l: Ledger) {
    forall id <- l.readings :: exists gone: nat :: Steady(l.readings[id], gone)
  }

  function Observed(l: Ledger): map<string, Bytes> {
    map id | id in l.readings :: LastObserved(l.readings[id])
  }

  /** Then pending plus drained bytes of a user are the sum of the last observed counters of the user's connections. */
  lemma {:induction false} BytesAreCountedOnce(events: seq<Event>, owner: map<string, string>, user: string)
    requires Owned(owner, events) && NeverReused(After(events))
    ensures Counted(After(events), user) == Total(After(events).ids, Observed(After(events)), owner, user)
  {
    hide Total, After, Credit, LastObserved, Counted, Steady, Consistent;
    var l := After(events);
    BooksBalance(events, owner, user);
    forall id | id in l.readings
      ensures Credit(l.readings[id]) == LastObserved(l.readings[id])
    {
      var gone: nat :| Steady(l.readings[id], gone);
      SteadyCreditIsLast(l.readings[id], gone);
      SteadyLastObserved(l.readings[id], gone);
    }
    assert Credits(l) == Observed(l);
  }
}
