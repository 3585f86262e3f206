/** Inserting rules into a live chain on start, and taking them out again on close. */
module RuleChain {
  import opened Seqs

  /** What a chain looks like part way: the chain, the rules inserted so far, and whether an insert failed. */
  datatype Progress<T> = Progress(chain: seq<T>, owned: seq<T>, failed: bool)

  function InsertAt<T>(chain: seq<T>, index: nat, rule: T): seq<T>
    requires index <= |chain|
  {
    chain[..index] + [rule] + chain[index..]
  }

  /** Rule `index` of the list: skip it if the chain has it, else insert it at its own position,
      which the kernel refuses when the chain is too short. */
  function InsertOne<T(==)>(p: Progress<T>, index: nat, rule: T): Progress<T> {
    if p.failed || rule in p.chain then p
    else if index > |p.chain| then p.(failed := true)
    else Progress(InsertAt(p.chain, index, rule), p.owned + [rule], false)
  }

  function InsertAll<T(==)>(chain: seq<T>, rules: seq<T>): Progress<T> {
    if rules == [] then Progress(chain, [], false)
    else InsertOne(InsertAll(chain, rules[..|rules| - 1]), |rules| - 1, rules[|rules| - 1])
  }

  /** Deleting by specification removes the first match, if any. */
  function DeleteFirst<T(==)>(chain: seq<T>, rule: T): seq<T> {
    if chain == [] then []
    else if chain[0] == rule then chain[1..]
    else [chain[0]] + DeleteFirst(chain[1..], rule)
  }

  function DeleteAll<T(==)>(chain: seq<T>, owned: seq<T>): seq<T>
    decreases owned
  {
    if owned == [] then chain else DeleteAll(DeleteFirst(chain, owned[|owned| - 1]), owned[..|owned| - 1])
  }

  // ----- The backend object of the source

  class Backend<T(==)> {
    var forward: seq<T>
    var input: seq<T>
    var forwardRules: seq<T>
    var inputRules: seq<T>

    constructor (forward: seq<T>, input: seq<T>)
      ensures this.forward == forward && this.input == input && forwardRules == [] && inputRules == []
    {
      this.forward, this.input, forwardRules, inputRules := forward, input, [], [];
    }

    method Configure(forwarding: seq<T>, incoming: seq<T>) returns (ok: bool)
      requires forwardRules == [] && inputRules == []
      modifies this
      ensures var f, i := InsertAll(old(forward), forwarding), InsertAll(old(input), incoming);
              && forward == f.chain && forwardRules == f.owned
              && (if f.failed then input == old(input) && inputRules == []
                  else input == i.chain && inputRules == i.owned)
              && (ok <==> !f.failed && !i.failed)
    {
      for index := 0 to |forwarding|
        invariant InsertAll(old(forward), forwarding[..index]) == Progress(forward, forwardRules, false)
        invariant input == old(input) && inputRules == []
      {
        var rule := forwarding[index];
        assert forwarding[..index + 1][..index] == forwarding[..index];
        if rule in forward {
          continue;
        }
        if index > |forward| {
          FailureStays(old(forward), forwarding, index + 1);
          return false;
        }
        forward := forward[..index] + [rule] + forward[index..];
        forwardRules := forwardRules + [rule];
      }
      assert forwarding[..|forwarding|] == forwarding;
      for index := 0 to |incoming|
        invariant InsertAll(old(forward), forwarding) == Progress(forward, forwardRules, false)
        invariant InsertAll(old(input), incoming[..index]) == Progress(input, inputRules, false)
      {
        var rule := incoming[index];
        assert incoming[..index + 1][..index] == incoming[..index];
        if rule in input {
          continue;
        }
        if index > |input| {
          FailureStays(old(input), incoming, index + 1);
          return false;
        }
        input := input[..index] + [rule] + input[index..];
        inputRules := inputRules + [rule];
      }
      assert incoming[..|incoming|] == incoming;
      return true;
    }

    method Close()
      modifies this
      ensures forward == DeleteAll(old(forward), old(forwardRules)) && input == DeleteAll(old(input), old(inputRules))
      ensures forwardRules == [] && inputRules == []
    {
      ghost var forwarding, incoming := forwardRules, inputRules;
      var index := |forwardRules|;
      assert forwarding[..index] == forwarding;
      while index > 0
        invariant forwardRules == forwarding && inputRules == incoming && index <= |forwarding|
        invariant input == old(input)
        invariant DeleteAll(forward, forwarding[..index]) == DeleteAll(old(forward), forwarding)
      {
        assert forwarding[..index][..index - 1] == forwarding[..index - 1];
        index := index - 1;
        forward := DeleteFirst(forward, forwardRules[index]);
      }
      forwardRules := [];
      index := |inputRules|;
      assert incoming[..index] == incoming;
      while index > 0
        invariant forwardRules == [] && inputRules == incoming && index <= |incoming|
        invariant forward == DeleteAll(old(forward), forwarding)
        invariant DeleteAll(input, incoming[..index]) == DeleteAll(old(input), incoming)
      {
        assert incoming[..index][..index - 1] == incoming[..index - 1];
        index := index - 1;
        input := DeleteFirst(input, inputRules[index]);
      }
      inputRules := [];
    }
  }

  lemma {:induction false} FailureStays<T>(chain: seq<T>, rules: seq<T>, i: nat)
    requires i <= |rules| && InsertAll(chain, rules[..i]).failed
    ensures InsertAll(chain, rules) == InsertAll(chain, rules[..i])
  {
    if i < |rules| {
      var front := rules[..|rules| - 1];
      assert front[..i] == rules[..i];
      FailureStays(chain, front, i);
    } else {
      assert rules[..i] == rules;
    }
  }

  // ----- Start, then close

  lemma {:induction false} DeleteInserted<T>(chain: seq<T>, index: nat, rule: T)
    requires index <= |chain| && rule !in chain
    ensures DeleteFirst(InsertAt(chain, index, rule), rule) == chain
  {
    var t := InsertAt(chain, index, rule);
    if index > 0 {
      assert t[1..] == InsertAt(chain[1..], index - 1, rule);
      DeleteInserted(chain[1..], index - 1, rule);
    }
  }

  /** Closing after any start, complete or failed half way, restores the chain exactly. */
  lemma {:induction false} CloseRestoresChain<T>(chain: seq<T>, rules: seq<T>)
    ensures var p := InsertAll(chain, rules); DeleteAll(p.chain, p.owned) == chain
  {
    if rules != [] {
      var n := |rules| - 1;
      CloseRestoresChain(chain, rules[..n]);
      var before, after := InsertAll(chain, rules[..n]), InsertAll(chain, rules);
      if after != before && !after.failed {
        DeleteInserted(before.chain, n, rules[n]);
        assert after.owned[..|after.owned| - 1] == before.owned;
      }
    }
  }

  lemma {:induction false} InsertMembers<T>(chain: seq<T>, index: nat, rule: T)
    requires index <= |chain|
    ensures multiset(InsertAt(chain, index, rule)) == multiset(chain) + multiset{rule}
    ensures forall x :: x in InsertAt(chain, index, rule) <==> x in chain || x == rule
  {
    assert chain == chain[..index] + chain[index..];
  }

  ghost predicate Claims<T>(chain: seq<T>, p: Progress<T>) {
    && (forall rule <- p.owned :: rule !in chain && rule in p.chain)
    && (forall rule <- chain :: rule in p.chain)
    && NoRepeats(p.owned)
    && multiset(p.chain) == multiset(chain) + multiset(p.owned)
  }

  /** Rules that were there before are not claimed and survive; each inserted rule is claimed once. */
  lemma {:induction false} OwnedAreNew<T>(chain: seq<T>, rules: seq<T>)
    ensures Claims(chain, InsertAll(chain, rules))
  {
    if rules != [] {
      var n := |rules| - 1;
      OwnedAreNew(chain, rules[..n]);
      var before := InsertAll(chain, rules[..n]);
      if rules[n] !in before.chain && n <= |before.chain| {
        InsertMembers(before.chain, n, rules[n]);
      }
    }
  }

  /** With distinct rules no insert position is ever out of range. */
  lemma {:induction false} DistinctRulesNeverFail<T>(chain: seq<T>, rules: seq<T>)
    requires NoRepeats(rules)
    ensures var p := InsertAll(chain, rules); !p.failed && forall rule <- rules :: rule in p.chain
    ensures |InsertAll(chain, rules).chain| >= |rules|
  {
    if rules != [] {
      var n := |rules| - 1;
      assert rules == rules[..n] + [rules[n]];
      DistinctRulesNeverFail(chain, rules[..n]);
      var before, after := InsertAll(chain, rules[..n]), InsertAll(chain, rules);
      if rules[n] !in before.chain {
        InsertMembers(before.chain, n, rules[n]);
      }
      DistinctMembers(rules, after.chain);
    }
  }

  lemma {:induction false} DistinctMembers<T>(s: seq<T>, t: seq<T>)
    requires NoRepeats(s) && forall x <- s :: x in t
    ensures |s| <= |t|
  {
    if s != [] {
      var x := s[|s| - 1];
      assert x in s;
      var k :| 0 <= k < |t| && t[k] == x;
      var rest := t[..k] + t[k + 1..];
      forall y | y in s[..|s| - 1]
        ensures y in rest
      {
        assert y in s;
        assert t == t[..k] + [x] + t[k + 1..];
      }
      DistinctMembers(s[..|s| - 1], rest);
    }
  }

  // ----- Where the rules end up

  /** The rules of the list that the chain already has, and those it lacks, in list order. */
  function Present<T(==)>(chain: seq<T>, rules: seq<T>): seq<T> {
    if rules == [] then []
    else Present(chain, rules[..|rules| - 1]) + if rules[|rules| - 1] in chain then [rules[|rules| - 1]] else []
  }

  function Missing<T(==)>(chain: seq<T>, rules: seq<T>): seq<T> {
    if rules == [] then []
    else Missing(chain, rules[..|rules| - 1]) + if rules[|rules| - 1] in chain then [] else [rules[|rules| - 1]]
  }

  /** If the head of the chain are the present rules, the missing ones are put between them. */
  lemma {:induction false} HeadGrows<T>(chain: seq<T>, rules: seq<T>, rest: seq<T>)
    requires NoRepeats(rules) && chain == Present(chain, rules) + rest
    ensures InsertAll(chain, rules) == Progress(rules + rest, Missing(chain, rules), false)
  {
    if rules != [] {
      hide InsertAt;
      var n := |rules| - 1;
      var front, rule := rules[..n], rules[n];
      assert rules == front + [rule] && rule !in front;
      if rule in chain {
        Reassociate(Present(chain, front), rule, rest);
        HeadGrows(chain, front, [rule] + rest);
        Reassociate(front, rule, rest);
      } else {
        HeadGrows(chain, front, rest);
        InsertBetween(front, rule, rest);
      }
    }
  }

  lemma {:induction false} Reassociate<T>(a: seq<T>, x: T, b: seq<T>)
    ensures a + [x] + b == a + ([x] + b)
  {
  }

  lemma {:induction false} InsertBetween<T>(head: seq<T>, rule: T, rest: seq<T>)
    ensures InsertAt(head + rest, |head|, rule) == head + [rule] + rest
    ensures rule in head + rest <==> rule in head || rule in rest
  {
  }

  /** What was inserted, in list order. */
  lemma {:induction false} OwnedAreMissing<T>(chain: seq<T>, rules: seq<T>)
    requires NoRepeats(rules)
    ensures InsertAll(chain, rules).owned == Missing(chain, rules)
    ensures forall rule :: rule in InsertAll(chain, rules).chain <==> rule in chain || rule in rules
  {
    hide Stranded, Lacking;
    DistinctRulesNeverFail(chain, rules);
    FailsIff(chain, rules);
    if rules != [] {
      var n := |rules| - 1;
      assert rules[n] !in rules[..n];
      OwnedAreMissing(chain, rules[..n]);
    }
  }

  lemma {:induction false} DeleteFirstAt<T>(head: seq<T>, rule: T, rest: seq<T>)
    requires rule !in head
    ensures DeleteFirst(head + [rule] + rest, rule) == head + rest
  {
    if head == [] {
      assert head + [rule] + rest == [rule] + rest;
    } else {
      DeleteFirstAt(head[1..], rule, rest);
      assert (head + [rule] + rest)[1..] == head[1..] + [rule] + rest;
    }
  }

  /** Taking the missing rules out of a chain that starts with all of them leaves the present ones. */
  lemma {:induction false} DeleteMissing<T>(chain: seq<T>, rules: seq<T>, rest: seq<T>)
    requires NoRepeats(rules)
    ensures DeleteAll(rules + rest, Missing(chain, rules)) == Present(chain, rules) + rest
  {
    if rules != [] {
      var n := |rules| - 1;
      var front, rule := rules[..n], rules[n];
      assert rules == front + [rule];
      assert front + [rule] + rest == front + ([rule] + rest);
      if rule in chain {
        DeleteMissing(chain, front, [rule] + rest);
        assert Missing(chain, rules) == Missing(chain, front);
        assert Present(chain, rules) + rest == Present(chain, front) + ([rule] + rest);
      } else {
        DeleteMissing(chain, front, rest);
        DeleteFirstAt(front, rule, rest);
        var owned := Missing(chain, rules);
        assert owned[..|owned| - 1] == Missing(chain, front) && owned[|owned| - 1] == rule;
        assert Present(chain, rules) == Present(chain, front);
      }
    }
  }

  /** The distinct rules end up first and in their order exactly if those found in the chain were its
      head, in list order. */
  lemma {:induction false} RulesComeFirstIff<T>(chain: seq<T>, rules: seq<T>)
    requires NoRepeats(rules)
    ensures rules <= InsertAll(chain, rules).chain <==> Present(chain, rules) <= chain
    ensures Present(chain, rules) <= chain ==>
              InsertAll(chain, rules) == Progress(rules + chain[|Present(chain, rules)|..], Missing(chain, rules),
                  false)
  {
    var p := InsertAll(chain, rules);
    if Present(chain, rules) <= chain {
      HeadGrows(chain, rules, chain[|Present(chain, rules)|..]);
    }
    if rules <= p.chain {
      var rest := p.chain[|rules|..];
      assert p.chain == rules + rest;
      OwnedAreMissing(chain, rules);
      DeleteMissing(chain, rules, rest);
      CloseRestoresChain(chain, rules);
      assert chain == Present(chain, rules) + rest;
    }
  }

  /** From a chain holding none of them, the distinct rules come first, in their order. */
  lemma {:induction false} FreshRulesComeFirst<T>(chain: seq<T>, rules: seq<T>)
    requires NoRepeats(rules) && forall rule <- rules :: rule !in chain
    ensures InsertAll(chain, rules) == Progress(rules + chain, rules, false)
  {
    NothingPresent(chain, rules);
    RulesComeFirstIff(chain, rules);
    assert chain[0..] == chain;
  }

  lemma {:induction false} NothingPresent<T>(chain: seq<T>, rules: seq<T>)
    requires forall rule <- rules :: rule !in chain
    ensures Present(chain, rules) == [] && Missing(chain, rules) == rules
  {
    if rules != [] {
      NothingPresent(chain, rules[..|rules| - 1]);
      assert rules == rules[..|rules| - 1] + [rules[|rules| - 1]];
    }
  }

  /** A start that finds its own rules in place changes nothing. */
  lemma {:induction false} RestartChangesNothing<T>(chain: seq<T>, rules: seq<T>)
    requires NoRepeats(rules)
    ensures var live := InsertAll(chain, rules).chain; InsertAll(live, rules) == Progress(live, [], false)
  {
    OwnedAreMissing(chain, rules);
    AllPresent(InsertAll(chain, rules).chain, rules);
  }

  lemma {:induction false} AllPresent<T>(chain: seq<T>, rules: seq<T>)
    requires forall rule <- rules :: rule in chain
    ensures InsertAll(chain, rules) == Progress(chain, [], false)
  {
    if rules != [] {
      assert rules == rules[..|rules| - 1] + [rules[|rules| - 1]];
      AllPresent(chain, rules[..|rules| - 1]);
    }
  }

  function Without<T(==)>(chain: seq<T>, owned: seq<T>): seq<T> {
    if chain == [] then []
    else (if chain[0] in owned then [] else [chain[0]]) + Without(chain[1..], owned)
  }

  lemma {:induction false} WithoutAppend<T>(a: seq<T>, b: seq<T>, owned: seq<T>)
    ensures Without(a + b, owned) == Without(a, owned) + Without(b, owned)
  {
    if a == [] {
      assert a + b == b;
    } else {
      assert (a + b)[1..] == a[1..] + b;
      WithoutAppend(a[1..], b, owned);
    }
  }

  lemma {:induction false} WithoutOneMore<T>(chain: seq<T>, owned: seq<T>, rule: T)
    requires rule !in chain
    ensures Without(chain, owned + [rule]) == Without(chain, owned)
  {
    if chain != [] {
      assert chain[0] in chain;
      WithoutOneMore(chain[1..], owned, rule);
    }
  }

  lemma {:induction false} InsertedIsLeftOut<T>(head: seq<T>, rule: T, tail: seq<T>, owned: seq<T>)
    requires rule !in head + tail
    ensures Without(head + [rule] + tail, owned + [rule]) == Without(head + tail, owned)
  {
    var more := owned + [rule];
    WithoutOneMore(head + tail, owned, rule);
    WithoutAppend(head, tail, more);
    WithoutAppend(head, [rule], more);
    WithoutAppend(head + [rule], tail, more);
    assert Without([rule], more) == [];
  }

  /** What was in the chain keeps the order it had there, whatever the list asks for: leaving out what
      was inserted gives the chain back. */
  lemma {:induction false} PresentRulesKeepTheirOrder<T>(chain: seq<T>, rules: seq<T>)
    ensures Without(InsertAll(chain, rules).chain, InsertAll(chain, rules).owned) == chain
  {
    hide Without;
    if rules == [] {
      NothingOwned(chain);
    } else {
      var n := |rules| - 1;
      PresentRulesKeepTheirOrder(chain, rules[..n]);
      OneMoreLeftOut(InsertAll(chain, rules[..n]), n, rules[n]);
    }
  }

  lemma {:induction false} OneMoreLeftOut<T>(p: Progress<T>, index: nat, rule: T)
    ensures var q := InsertOne(p, index, rule); Without(q.chain, q.owned) == Without(p.chain, p.owned)
  {
    hide Without;
    if !p.failed && rule !in p.chain && index <= |p.chain| {
      assert p.chain == p.chain[..index] + p.chain[index..];
      InsertedIsLeftOut(p.chain[..index], rule, p.chain[index..], p.owned);
    }
  }

  lemma {:induction false} NothingOwned<T>(chain: seq<T>)
    ensures Without(chain, []) == chain
  {
    if chain != [] {
      NothingOwned(chain[1..]);
    }
  }

  /** If the first rule is in the chain, the head of the chain stays, and if only the first rule is in it
      but not as its head, all the others come between that head and the rest. */
  lemma {:induction false} HeadIsNotOvertaken<T>(chain: seq<T>, rules: seq<T>)
    requires chain != [] && (rules != [] ==> rules[0] in chain)
    ensures InsertAll(chain, rules).chain != [] && InsertAll(chain, rules).chain[0] == chain[0]
  {
    if |rules| > 1 {
      HeadIsNotOvertaken(chain, rules[..|rules| - 1]);
    } else if |rules| == 1 {
      assert rules[..0] == [];
    }
  }

  lemma {:induction false} InsertLast<T>(chain: seq<T>, front: seq<T>, rule: T)
    ensures InsertAll(chain, front + [rule]) == InsertOne(InsertAll(chain, front), |front|, rule)
  {
    assert (front + [rule])[..|front|] == front;
  }

  lemma {:induction false} LastFollowsHead<T>(chain: seq<T>, first: T, front: seq<T>, rule: T)
    requires chain != [] && rule !in chain && rule !in front
    requires InsertAll(chain, [first] + front) == Progress([chain[0]] + front + chain[1..], front, false)
    ensures InsertAll(chain, [first] + (front + [rule]))
         == Progress([chain[0]] + (front + [rule]) + chain[1..], front + [rule], false)
  {
    var head, tail := [chain[0]], chain[1..];
    InsertLast(chain, [first] + front, rule);
    InsertBetween(head + front, rule, tail);
    assert [first] + front + [rule] == [first] + (front + [rule]);
    assert head + front + [rule] == head + (front + [rule]);
    hide InsertAll, InsertAt;
    assert chain == head + tail;
    assert rule !in head + front + tail;
  }

  lemma {:induction false} OthersFollowHead<T>(chain: seq<T>, first: T, others: seq<T>)
    requires first in chain && chain[0] != first
    requires NoRepeats(others) && forall rule <- others :: rule !in chain
    ensures InsertAll(chain, [first] + others) == Progress([chain[0]] + others + chain[1..], others, false)
  {
    if others == [] {
      InsertLast(chain, [], first);
      assert [] + [first] == [first] + others;
      assert chain == [chain[0]] + others + chain[1..];
    } else {
      hide InsertAll;
      var n := |others| - 1;
      var front, rule := others[..n], others[n];
      assert others == front + [rule] && rule !in front && rule in others;
      OthersFollowHead(chain, first, front);
      LastFollowsHead(chain, first, front, rule);
    }
  }

  // ----- When an insert position is refused

  /** The rules of the list that the chain lacks, as a set. */
  function Lacking<T(==)>(chain: seq<T>, rules: seq<T>): set<T> {
    set r | r in rules && r !in chain
  }

  /** Position `k` lies behind the chain as it is when rule `k`, not seen before, has its turn. */
  ghost predicate Stranded<T>(chain: seq<T>, rules: seq<T>, k: nat)
    requires k < |rules|
  {
    && rules[k] !in chain && rules[k] !in rules[..k]
    && k > |chain| + |Lacking(chain, rules[..k])|
  }

  lemma {:induction false} StrandedBefore<T>(chain: seq<T>, rules: seq<T>)
    requires rules != []
    ensures forall k: nat :: k < |rules| - 1 ==>
              (Stranded(chain, rules[..|rules| - 1], k) <==> Stranded(chain, rules, k))
  {
    var front := rules[..|rules| - 1];
    forall k: nat | k < |front|
      ensures Stranded(chain, front, k) <==> Stranded(chain, rules, k)
    {
      assert front[..k] == rules[..k] && front[k] == rules[k];
    }
  }

  /** A start fails exactly if repeats in the list leave a new rule without a position in the chain. */
  lemma {:induction false} FailsIff<T>(chain: seq<T>, rules: seq<T>)
    ensures InsertAll(chain, rules).failed <==> exists k: nat :: k < |rules| && Stranded(chain, rules, k)
    ensures !InsertAll(chain, rules).failed ==>
              && (forall x :: x in InsertAll(chain, rules).chain <==> x in chain || x in rules)
              && |InsertAll(chain, rules).chain| == |chain| + |Lacking(chain, rules)|
  {
    if rules == [] {
      assert Lacking(chain, rules) == {};
    } else {
      var n := |rules| - 1;
      var front, rule := rules[..n], rules[n];
      FailsIff(chain, front);
      StrandedBefore(chain, rules);
      assert rules == front + [rule];
      var before := InsertAll(chain, front);
      if before.failed {
        var k: nat :| k < n && Stranded(chain, front, k);
        assert Stranded(chain, rules, k);
      } else {
        if rule in before.chain {
          assert Lacking(chain, rules) == Lacking(chain, front);
          assert !Stranded(chain, rules, n);
        } else {
          assert Lacking(chain, rules) == Lacking(chain, front) + {rule};
          assert n > |before.chain| <==> Stranded(chain, rules, n);
          if n <= |before.chain| {
            InsertMembers(before.chain, n, rule);
          }
        }
      }
    }
  }
}
