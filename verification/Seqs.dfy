/** Sequences without repeats, and filtering, the other thing the loops over slices do. */
module Seqs {

  ghost predicate NoRepeats<T>(s: seq<T>) {
    forall i, j :: 0 <= i < j < |s| ==> s[i] != s[j]
  }

  function Filter<T>(keep: T -> bool, s: seq<T>): seq<T> {
    if s == [] then []
    else
      var front, last := Filter(keep, s[..|s| - 1]), s[|s| - 1];
      if keep(last) then front + [last] else front
  }

  lemma {:induction false} FilterNext<T>(keep: T -> bool, s: seq<T>, i: nat)
    requires i < |s|
    ensures Filter(keep, s[..i + 1]) == Filter(keep, s[..i]) + if keep(s[i]) then [s[i]] else []
  {
    assert s[..i + 1][..i] == s[..i];
  }

  lemma {:induction false} FilterMembers<T>(keep: T -> bool, s: seq<T>)
    ensures forall x :: x in Filter(keep, s) <==> x in s && keep(x)
  {
    if s != [] {
      var n := |s| - 1;
      FilterMembers(keep, s[..n]);
      assert s == s[..n] + [s[n]];
    }
  }

  lemma {:induction false} FilterSame<T>(keep: T -> bool, other: T -> bool, s: seq<T>)
    requires forall x <- s :: keep(x) == other(x)
    ensures Filter(keep, s) == Filter(other, s)
  {
    if s != [] {
      var n := |s| - 1;
      assert forall x <- s[..n] :: x in s;
      assert s[n] in s;
      FilterSame(keep, other, s[..n]);
    }
  }

  // ----- First mentions

  /** Where the element first stands, or the length of the sequence. */
  function First<T(==)>(s: seq<T>, x: T): (k: nat)
    ensures k <= |s| && (k < |s| <==> x in s) && (k < |s| ==> s[k] == x)
    ensures forall i :: 0 <= i < k ==> s[i] != x
  {
    if s == [] || s[0] == x then 0 else 1 + First(s[1..], x)
  }

  lemma {:induction false} FirstIs<T>(s: seq<T>, x: T, k: nat)
    requires k < |s| && s[k] == x && forall i :: 0 <= i < k ==> s[i] != x
    ensures First(s, x) == k
  {
  }

  /** The elements of `all`, each once, in the order they are first mentioned in. */
  ghost predicate FirstMentions<T>(all: seq<T>, distinct: seq<T>) {
    && NoRepeats(distinct) && (forall x <- distinct :: x in all) && (forall x <- all :: x in distinct)
    && forall i, j :: 0 <= i < j < |distinct| ==> First(all, distinct[i]) < First(all, distinct[j])
  }

  lemma {:induction false} FirstStays<T>(all: seq<T>, more: seq<T>, x: T)
    ensures x in all ==> First(all + more, x) == First(all, x)
    ensures x !in all ==> First(all + more, x) >= |all|
  {
    if x in all {
      FirstIs(all + more, x, First(all, x));
    } else {
      assert forall i :: 0 <= i < |all| ==> (all + more)[i] == all[i];
    }
  }

  /** One more mention. */
  lemma {:induction false} MentionMore<T>(all: seq<T>, distinct: seq<T>, x: T)
    requires FirstMentions(all, distinct)
    ensures FirstMentions(all + [x], if x in distinct then distinct else distinct + [x])
  {
    hide First;
    var more := if x in distinct then distinct else distinct + [x];
    forall i, j | 0 <= i < j < |more|
      ensures First(all + [x], more[i]) < First(all + [x], more[j])
    {
      FirstStays(all, [x], more[i]);
      FirstStays(all, [x], more[j]);
      FirstBelow(all, more[i]);
    }
  }

  lemma {:induction false} FirstBelow<T>(s: seq<T>, x: T)
    requires x in s
    ensures First(s, x) < |s|
  {
  }

  /** One mention less. */
  lemma {:induction false} MentionLess<T>(front: seq<T>, x: T, distinct: seq<T>) returns (less: seq<T>)
    requires FirstMentions(front + [x], distinct)
    ensures FirstMentions(front, less) && distinct == if x in front then less else less + [x]
  {
    var all := front + [x];
    assert forall y :: y in all <==> y in front || y == x;
    forall y | y in all
      ensures First(all, y) == if y in front then First(front, y) else |front|
    {
      FirstStays(front, [x], y);
      FirstBelow(all, y);
    }
    if x in front {
      less := distinct;
    } else {
      less := distinct[..|distinct| - 1];
      hide First;
      LastIs(all, distinct, x);
      LessMentions(front, x, distinct, less);
    }
  }

  lemma {:induction false} LessMentions<T>(front: seq<T>, x: T, distinct: seq<T>, less: seq<T>)
    requires FirstMentions(front + [x], distinct) && x !in front && distinct == less + [x]
    requires forall y <- front :: First(front + [x], y) == First(front, y)
    ensures FirstMentions(front, less)
  {
    hide First;
    forall y | y in less
      ensures y in front
    {
      var i :| 0 <= i < |less| && less[i] == y;
      assert distinct[i] == y && distinct[|less|] == x && y in distinct;
    }
    forall y | y in front
      ensures y in less
    {
      assert y in front + [x];
    }
    forall i, j | 0 <= i < j < |less|
      ensures First(front, less[i]) < First(front, less[j]) && less[i] != less[j]
    {
      assert distinct[i] == less[i] && distinct[j] == less[j];
    }
  }

  lemma {:induction false} SomeMention<T>(all: seq<T>, distinct: seq<T>)
    requires FirstMentions(all, distinct) && distinct != []
    ensures all != []
  {
    assert distinct[0] in distinct;
  }

  lemma {:induction false} LastIs<T>(all: seq<T>, distinct: seq<T>, x: T)
    requires FirstMentions(all, distinct) && x in all && forall y <- all :: y == x || First(all, y) < First(all, x)
    ensures distinct != [] && distinct[|distinct| - 1] == x
  {
    var k :| 0 <= k < |distinct| && distinct[k] == x;
    assert distinct[|distinct| - 1] in all;
  }

  /** There is one such sequence. */
  lemma {:induction false} MentionsAreUnique<T>(all: seq<T>, a: seq<T>, b: seq<T>)
    requires FirstMentions(all, a) && FirstMentions(all, b)
    ensures a == b
  {
    hide First;
    if all == [] {
      if a != [] {
        SomeMention(all, a);
      } else if b != [] {
        SomeMention(all, b);
      }
    } else {
      var front, x := all[..|all| - 1], all[|all| - 1];
      assert all == front + [x];
      hide FirstMentions;
      var less := MentionLess(front, x, a);
      var less' := MentionLess(front, x, b);
      MentionsAreUnique(front, less, less');
    }
  }

  lemma {:induction false} MentionAgain<T>(all: seq<T>, distinct: seq<T>, more: seq<T>)
    requires FirstMentions(all, distinct) && forall x <- more :: x in distinct
    ensures FirstMentions(all + more, distinct)
  {
    hide First, FirstMentions;
    if more == [] {
      assert all + more == all;
    } else {
      var n := |more| - 1;
      MentionAgain(all, distinct, more[..n]);
      MentionMore(all + more[..n], distinct, more[n]);
      assert all + more[..n] + [more[n]] == all + more;
    }
  }
}
