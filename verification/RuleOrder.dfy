/** Where the rules of a list stand in the chain after a start, among each other and among the rest. */
module RuleOrder {
  import opened Seqs
  import opened RuleChain

  /** One more rule pushes back what stands at its place or behind it. */
  lemma {:induction false} FirstAfterInsert<T>(chain: seq<T>, index: nat, rule: T, x: T)
    requires index <= |chain| && rule !in chain
    ensures First(InsertAt(chain, index, rule), rule) == index
    ensures x in chain ==>
              First(InsertAt(chain, index, rule), x) == First(chain, x) + if First(chain, x) >= index then 1 else 0
  {
    var more := InsertAt(chain, index, rule);
    FirstIs(more, rule, index);
    if x in chain {
      var k := First(chain, x);
      FirstIs(more, x, if k >= index then k + 1 else k);
    }
  }

  /** The chain after the first `n` rules. */
  function Chain<T(==)>(chain: seq<T>, rules: seq<T>, n: nat): seq<T>
    requires n <= |rules|
  {
    InsertAll(chain, rules[..n]).chain
  }

  /** Distinct rules have their turn one by one: skipped if in the chain, inserted at their position if not. */
  lemma {:induction false} Turn<T>(chain: seq<T>, rules: seq<T>, n: nat)
    requires NoRepeats(rules) && n < |rules|
    ensures forall x :: x in Chain(chain, rules, n) <==> x in chain || x in rules[..n]
    ensures rules[n] in Chain(chain, rules, n) <==> rules[n] in chain
    ensures n <= |Chain(chain, rules, n)|
    ensures Chain(chain, rules, n + 1) ==
            if rules[n] in chain then Chain(chain, rules, n) else InsertAt(Chain(chain, rules, n), n, rules[n])
  {
    assert rules[..n + 1][..n] == rules[..n];
    OwnedAreMissing(chain, rules[..n]);
    DistinctRulesNeverFail(chain, rules[..n]);
    DistinctRulesNeverFail(chain, rules[..n + 1]);
  }

  /** A turn counts for the present rules or for the missing ones. */
  lemma {:induction false} TurnCounts<T>(chain: seq<T>, rules: seq<T>, n: nat)
    requires n < |rules|
    ensures |Present(chain, rules[..n])| + |Missing(chain, rules[..n])| == n
    ensures |Present(chain, rules[..n + 1])| == |Present(chain, rules[..n])| + if rules[n] in chain then 1 else 0
    ensures |Missing(chain, rules[..n + 1])| == |Missing(chain, rules[..n])| + if rules[n] in chain then 0 else 1
  {
    assert rules[..n + 1][..n] == rules[..n];
    Parts(chain, rules[..n]);
  }

  lemma {:induction false} Parts<T>(chain: seq<T>, rules: seq<T>)
    ensures |Present(chain, rules)| + |Missing(chain, rules)| == |rules|
  {
    if rules != [] {
      Parts(chain, rules[..|rules| - 1]);
    }
  }

  /** A turn moves what stands at its position or behind it, all alike. */
  lemma {:induction false} Moved<T>(chain: seq<T>, rules: seq<T>, n: nat, x: T)
    requires NoRepeats(rules) && n < |rules| && x in Chain(chain, rules, n)
    ensures var k := First(Chain(chain, rules, n), x);
            First(Chain(chain, rules, n + 1), x) == k + if rules[n] !in chain && k >= n then 1 else 0
    ensures x in Chain(chain, rules, n + 1)
  {
    Turn(chain, rules, n);
    hide Chain, NoRepeats;
    if rules[n] !in chain {
      FirstAfterInsert(Chain(chain, rules, n), n, rules[n], x);
    }
  }

  lemma {:induction false} AllTurns<T>(chain: seq<T>, rules: seq<T>)
    ensures Chain(chain, rules, |rules|) == InsertAll(chain, rules).chain
  {
    assert rules[..|rules|] == rules;
  }

  /** What is in the chain keeps its order while more rules are inserted. */
  lemma {:induction false} OrderStays<T>(chain: seq<T>, rules: seq<T>, n: nat, x: T, y: T)
    requires NoRepeats(rules) && n <= |rules|
    requires x in Chain(chain, rules, n) && y in Chain(chain, rules, n)
    ensures var now, live := Chain(chain, rules, n), InsertAll(chain, rules).chain;
            x in live && y in live && (First(now, x) < First(now, y) <==> First(live, x) < First(live, y))
    decreases |rules| - n
  {
    hide Chain, NoRepeats, First, InsertAll;
    if n == |rules| {
      AllTurns(chain, rules);
    } else {
      Moved(chain, rules, n, x);
      Moved(chain, rules, n, y);
      OrderStays(chain, rules, n + 1, x, y);
    }
  }

  /** What stands among the places whose turn is over stays there, and nothing else gets there. */
  lemma {:induction false} PlaceStays<T>(chain: seq<T>, rules: seq<T>, k: nat, n: nat, x: T)
    requires NoRepeats(rules) && k <= n <= |rules| && x in Chain(chain, rules, n)
    ensures x in InsertAll(chain, rules).chain
    ensures First(Chain(chain, rules, n), x) < k <==> First(InsertAll(chain, rules).chain, x) < k
    decreases |rules| - n
  {
    hide Chain, NoRepeats, First, InsertAll;
    if n == |rules| {
      AllTurns(chain, rules);
    } else {
      Moved(chain, rules, n, x);
      PlaceStays(chain, rules, k, n + 1, x);
    }
  }

  // ----- One rule's place

  lemma {:induction false} PresentGrows<T>(chain: seq<T>, rules: seq<T>, n: nat, k: nat)
    requires n <= k <= |rules|
    ensures |Present(chain, rules[..n])| <= |Present(chain, rules[..k])|
    decreases k
  {
    if n < k {
      assert rules[..k][..k - 1] == rules[..k - 1];
      PresentGrows(chain, rules, n, k - 1);
    }
  }

  lemma {:induction false} AllIn<T>(chain: seq<T>, rules: seq<T>, n: nat)
    requires NoRepeats(rules) && n <= |rules|
    ensures forall i :: 0 <= i < n ==> rules[i] in Chain(chain, rules, n)
    ensures forall x <- chain :: x in Chain(chain, rules, n)
  {
    OwnedAreMissing(chain, rules[..n]);
    assert forall i :: 0 <= i < n ==> rules[i] in rules[..n];
  }

  lemma {:induction false} NoTurns<T>(chain: seq<T>, rules: seq<T>)
    ensures Chain(chain, rules, 0) == chain && |Present(chain, rules[..0])| == |Missing(chain, rules[..0])| == 0
  {
    assert rules[..0] == [];
  }

  /** What the chain had is pushed back by every missing rule, until the turns have passed it. */
  lemma {:induction false} PlaceAfter<T>(chain: seq<T>, rules: seq<T>, n: nat, x: T)
    requires NoRepeats(rules) && n <= |rules| && x in chain
    ensures x in Chain(chain, rules, n)
    ensures var was, now := First(chain, x), First(Chain(chain, rules, n), x);
            && (now < n <==> was < |Present(chain, rules[..n])|)
            && (now >= n ==> now == was + |Missing(chain, rules[..n])|)
  {
    hide Chain, NoRepeats, First, Present, Missing;
    if n == 0 {
      NoTurns(chain, rules);
    } else {
      PlaceAfter(chain, rules, n - 1, x);
      TurnCounts(chain, rules, n - 1);
      Moved(chain, rules, n - 1, x);
    }
  }

  /** A rule that is inserted ends up at its own index. */
  lemma {:induction false} InsertedAtIndex<T>(chain: seq<T>, rules: seq<T>, i: nat)
    requires NoRepeats(rules) && i < |rules| && rules[i] !in chain
    ensures First(InsertAll(chain, rules).chain, rules[i]) == i
  {
    hide NoRepeats, First, InsertAll, Chain;
    Turn(chain, rules, i);
    FirstAfterInsert(Chain(chain, rules, i), i, rules[i], rules[i]);
    AllIn(chain, rules, i + 1);
    PlaceStays(chain, rules, i, i + 1, rules[i]);
    PlaceStays(chain, rules, i + 1, i + 1, rules[i]);
  }

  /** One the chain had is among the first `k` exactly if it stood among as many as the chain had of the first `k`. */
  lemma {:induction false} PresentPlace<T>(chain: seq<T>, rules: seq<T>, k: nat, x: T)
    requires NoRepeats(rules) && k <= |rules| && x in chain
    ensures First(InsertAll(chain, rules).chain, x) < k <==> First(chain, x) < |Present(chain, rules[..k])|
  {
    hide NoRepeats, First, InsertAll, Chain;
    PlaceAfter(chain, rules, k, x);
    PlaceStays(chain, rules, k, k, x);
  }

  // ----- Who comes first

  /** The place the rule has in the chain, or, if it is missing, behind as many rules as the chain has of those
      before it. */
  function PlaceOf<T(==)>(chain: seq<T>, rules: seq<T>, k: nat): nat
    requires k < |rules|
  {
    if rules[k] in chain then First(chain, rules[k]) else |Present(chain, rules[..k])|
  }

  /** The `i`-th rule has its place before that of the `k`-th one, or there and is missing. */
  predicate KeepsOrder<T(==)>(chain: seq<T>, rules: seq<T>, i: nat, k: nat)
    requires i < k < |rules|
  {
    || PlaceOf(chain, rules, i) < PlaceOf(chain, rules, k)
    || (rules[i] !in chain && PlaceOf(chain, rules, i) == PlaceOf(chain, rules, k))
  }

  /** Two rules stand in list order after a start exactly if their places do before it. */
  lemma {:induction false} OrderIff<T>(chain: seq<T>, rules: seq<T>, i: nat, k: nat)
    requires NoRepeats(rules) && i < k < |rules|
    ensures var live := InsertAll(chain, rules).chain;
            First(live, rules[i]) < First(live, rules[k]) <==> KeepsOrder(chain, rules, i, k)
  {
    hide NoRepeats, First, InsertAll, Present;
    if rules[i] in chain && rules[k] in chain {
      PresentOrder(chain, rules, rules[i], rules[k]);
    } else if rules[k] in chain {
      OrderToPresent(chain, rules, i, k);
    } else {
      InsertedAtIndex(chain, rules, k);
      if rules[i] in chain {
        PresentPlace(chain, rules, k, rules[i]);
      } else {
        InsertedAtIndex(chain, rules, i);
        PresentGrows(chain, rules, i, k);
      }
    }
  }

  lemma {:induction false} PresentOrder<T>(chain: seq<T>, rules: seq<T>, x: T, y: T)
    requires NoRepeats(rules) && x in chain && y in chain
    ensures var live := InsertAll(chain, rules).chain; First(live, x) < First(live, y) <==>
              First(chain, x) < First(chain, y)
  {
    NoTurns(chain, rules);
    hide NoRepeats, First, Chain;
    OrderStays(chain, rules, 0, x, y);
  }

  lemma {:induction false} OrderToPresent<T>(chain: seq<T>, rules: seq<T>, i: nat, k: nat)
    requires NoRepeats(rules) && i < k < |rules| && rules[i] !in chain && rules[k] in chain
    ensures var live := InsertAll(chain, rules).chain;
            First(live, rules[i]) < First(live, rules[k]) <==> |Present(chain, rules[..i])| <= First(chain, rules[k])
  {
    hide NoRepeats, InsertAll, Chain, Present, Missing;
    InsertedAtIndex(chain, rules, i);
    PresentPlace(chain, rules, i + 1, rules[k]);
    TurnCounts(chain, rules, i);
    InLive(chain, rules, i);
    InLive(chain, rules, k);
    assert rules[i] != rules[k];
  }

  lemma {:induction false} InLive<T>(chain: seq<T>, rules: seq<T>, i: nat)
    requires NoRepeats(rules) && i < |rules|
    ensures rules[i] in InsertAll(chain, rules).chain
  {
    AllTurns(chain, rules);
    hide Chain, NoRepeats, InsertAll;
    AllIn(chain, rules, |rules|);
  }

  /** The first `k` rules, as far as the chain has them, stand before place `bound`. */
  ghost predicate Before<T>(chain: seq<T>, rules: seq<T>, k: nat, bound: int)
    requires k <= |rules|
  {
    forall i :: 0 <= i < k && rules[i] in chain ==> First(chain, rules[i]) < bound
  }

  /** All rules before the `k`-th one stand before it. */
  ghost predicate Ahead<T>(chain: seq<T>, rules: seq<T>, k: nat)
    requires k < |rules|
  {
    forall i :: 0 <= i < k ==> First(chain, rules[i]) < First(chain, rules[k])
  }

  lemma {:induction false} PresentAre<T>(chain: seq<T>, rules: seq<T>)
    requires NoRepeats(rules)
    ensures NoRepeats(Present(chain, rules)) && forall r <- Present(chain, rules) :: r in rules && r in chain
  {
    if rules != [] {
      var n := |rules| - 1;
      PresentAre(chain, rules[..n]);
      assert rules == rules[..n] + [rules[n]];
      assert rules[n] !in rules[..n];
    }
  }

  /** Behind all rules before it there is room for them. */
  lemma {:induction false} RoomBefore<T>(chain: seq<T>, rules: seq<T>, k: nat)
    requires NoRepeats(rules) && k < |rules| && rules[k] in chain && Before(chain, rules, k, First(chain, rules[k]))
    ensures |Present(chain, rules[..k])| <= First(chain, rules[k])
  {
    var present, head := Present(chain, rules[..k]), chain[..First(chain, rules[k])];
    PresentAre(chain, rules[..k]);
    forall r | r in present
      ensures r in head
    {
      var i :| 0 <= i < k && rules[..k][i] == r;
      assert rules[i] in chain && head[First(chain, rules[i])] == r;
    }
    DistinctMembers(present, head);
  }

  /** After a start all rules before the `k`-th one stand before it exactly if those the chain had stood before its
      place: the missing ones follow. */
  lemma {:induction false} AheadIff<T>(chain: seq<T>, rules: seq<T>, k: nat)
    requires NoRepeats(rules) && k < |rules|
    ensures Ahead(InsertAll(chain, rules).chain, rules, k) <==> Before(chain, rules, k, PlaceOf(chain, rules, k))
  {
    hide NoRepeats, First, InsertAll, Chain, Present;
    forall i | 0 <= i < k
      ensures First(InsertAll(chain, rules).chain, rules[i]) < First(InsertAll(chain, rules).chain, rules[k]) <==>
              KeepsOrder(chain, rules, i, k)
    {
      OrderIff(chain, rules, i, k);
    }
    if Before(chain, rules, k, PlaceOf(chain, rules, k)) {
      if rules[k] in chain {
        RoomBefore(chain, rules, k);
      }
      forall i | 0 <= i < k
        ensures KeepsOrder(chain, rules, i, k)
      {
        PresentGrows(chain, rules, i, k);
      }
    }
  }

  // ----- The first rules at the head

  /** The first `k` rules in the chain stand at its head, in any order. */
  ghost predicate Stacked<T>(chain: seq<T>, rules: seq<T>, k: nat)
    requires k <= |rules|
  {
    Before(chain, rules, k, |Present(chain, rules[..k])|)
  }

  /** After a start the first `k` rules fill the first `k` places, in some order, exactly if those the chain had were
      at its head. */
  lemma {:induction false} FirstPlacesIff<T>(chain: seq<T>, rules: seq<T>, k: nat)
    requires NoRepeats(rules) && k <= |rules|
    ensures Stacked(chain, rules, k) <==> forall i :: 0 <= i < k ==> First(InsertAll(chain, rules).chain, rules[i]) < k
  {
    hide Chain, NoRepeats, First, InsertAll, Present;
    forall i | 0 <= i < k
      ensures First(InsertAll(chain, rules).chain, rules[i]) < k <==>
              (rules[i] in chain ==> First(chain, rules[i]) < |Present(chain, rules[..k])|)
    {
      if rules[i] in chain {
        PresentPlace(chain, rules, k, rules[i]);
      } else {
        InsertedAtIndex(chain, rules, i);
      }
    }
  }
}
