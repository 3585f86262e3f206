/** Byte-wise string comparison. */
module Lex {

  predicate Less(a: string, b: string) {
    if b == "" then false
    else if a == "" then true
    else if a[0] != b[0] then a[0] < b[0]
    else Less(a[1..], b[1..])
  }

  lemma {:induction false} Total(a: string, b: string)
    ensures !(Less(a, b) && Less(b, a))
    ensures a != b <==> Less(a, b) || Less(b, a)
  {
    if a != "" && b != "" && a[0] == b[0] {
      assert a == [a[0]] + a[1..] && b == [b[0]] + b[1..];
      Total(a[1..], b[1..]);
    }
  }

  /** The strings agree before `k`, where the first one ends or has the smaller character. */
  predicate LessAt(a: string, b: string, k: nat) {
    k <= |a| && k < |b| && (forall i :: 0 <= i < k ==> a[i] == b[i]) && (k == |a| || a[k] < b[k])
  }

  lemma {:induction false} LessAtStep(a: string, b: string, k: nat)
    requires a != "" && b != "" && a[0] == b[0]
    ensures LessAt(a, b, k + 1) <==> LessAt(a[1..], b[1..], k)
  {
    var c, d := a[1..], b[1..];
    if LessAt(c, d, k) {
      assert forall i :: 1 <= i < k + 1 ==> a[i] == c[i - 1] && b[i] == d[i - 1];
    }
  }

  /** The order of a dictionary. */
  lemma {:induction false} LessIff(a: string, b: string)
    ensures Less(a, b) <==> exists k: nat :: LessAt(a, b, k)
  {
    if a != "" && b != "" && a[0] == b[0] {
      var c, d := a[1..], b[1..];
      LessIff(c, d);
      if k: nat :| LessAt(c, d, k) {
        LessAtStep(a, b, k);
      }
      if k: nat :| LessAt(a, b, k) {
        LessAtStep(a, b, k - 1);
      }
    } else {
      assert Less(a, b) ==> LessAt(a, b, 0);
    }
  }

  lemma {:induction false} Transitive(a: string, b: string, c: string)
    requires Less(a, b) && Less(b, c)
    ensures Less(a, c)
  {
    if a != "" && a[0] == b[0] == c[0] {
      Transitive(a[1..], b[1..], c[1..]);
    }
  }
}

/** The contract of a stable library sort, by insertion. */
module StableSort {

  /** What a stable sort asks of its comparison. */
  ghost predicate StrictWeak<T(!new)>(before: (T, T) -> bool) {
    && (forall x, y :: before(x, y) ==> !before(y, x))
    && (forall x, y, z :: before(x, y) ==> before(x, z) || before(z, y))
  }

  ghost predicate Sorted<T>(before: (T, T) -> bool, s: seq<T>) {
    forall i, j :: 0 <= i < j < |s| ==> !before(s[j], s[i])
  }

  /** Any two different members are ordered. */
  ghost predicate Separates<T>(before: (T, T) -> bool, s: seq<T>) {
    forall i, j :: 0 <= i < j < |s| ==> before(s[i], s[j]) || before(s[j], s[i])
  }

  function Insert<T>(before: (T, T) -> bool, x: T, s: seq<T>): seq<T> {
    if s == [] then [x]
    else if before(s[0], x) then [s[0]] + Insert(before, x, s[1..])
    else [x] + s
  }

  function Sort<T>(before: (T, T) -> bool, s: seq<T>): seq<T> {
    if s == [] then [] else Insert(before, s[0], Sort(before, s[1..]))
  }

  lemma {:induction false} InsertMembers<T>(before: (T, T) -> bool, x: T, s: seq<T>)
    ensures multiset(Insert(before, x, s)) == multiset(s) + multiset{x}
  {
    if s != [] {
      assert s == [s[0]] + s[1..];
      InsertMembers(before, x, s[1..]);
    }
  }

  /** Not coming later is transitive. */
  lemma {:induction false} NotBefore<T(!new)>(before: (T, T) -> bool, x: T, y: T, z: T)
    requires StrictWeak(before) && !before(y, x) && !before(z, y)
    ensures !before(z, x)
  {
    assert before(z, x) ==> before(z, y) || before(y, x);
  }

  lemma {:induction false} InsertSorted<T(!new)>(before: (T, T) -> bool, x: T, s: seq<T>)
    requires StrictWeak(before) && Sorted(before, s)
    ensures Sorted(before, Insert(before, x, s))
  {
    if s != [] {
      var r := Insert(before, x, s);
      if before(s[0], x) {
        var rest := Insert(before, x, s[1..]);
        InsertSorted(before, x, s[1..]);
        InsertMembers(before, x, s[1..]);
        forall j | 0 <= j < |rest|
          ensures !before(rest[j], s[0])
        {
          assert rest[j] in multiset(rest);
          assert rest[j] == x || rest[j] in s[1..];
        }
        assert r == [s[0]] + rest;
      } else {
        forall j | 0 < j < |s|
          ensures !before(s[j], x)
        {
          NotBefore(before, x, s[0], s[j]);
        }
        assert r == [x] + s;
      }
    }
  }

  /** The result is a sorted permutation. */
  lemma {:induction false} SortIsSorted<T(!new)>(before: (T, T) -> bool, s: seq<T>)
    requires StrictWeak(before)
    ensures Sorted(before, Sort(before, s))
    ensures multiset(Sort(before, s)) == multiset(s)
    ensures |Sort(before, s)| == |s|
  {
    if s != [] {
      assert s == [s[0]] + s[1..];
      SortIsSorted(before, s[1..]);
      InsertSorted(before, s[0], Sort(before, s[1..]));
      InsertMembers(before, s[0], Sort(before, s[1..]));
      assert |multiset(Sort(before, s))| == |multiset(s)|;
    }
  }

  /** A sorted sequence keeps its order: equal elements are not swapped. */
  lemma {:induction false} SortedStays<T(!new)>(before: (T, T) -> bool, s: seq<T>)
    requires Sorted(before, s)
    ensures Sort(before, s) == s
  {
    if s != [] {
      SortedStays(before, s[1..]);
      if |s| > 1 {
        assert !before(s[1], s[0]);
      }
    }
  }

  lemma {:induction false} SameHead<T(!new)>(before: (T, T) -> bool, s: seq<T>, t: seq<T>)
    requires StrictWeak(before) && Sorted(before, s) && Sorted(before, t)
    requires Separates(before, s) && multiset(s) == multiset(t)
    ensures |s| == |t|
    ensures s != [] ==> s[0] == t[0]
  {
    assert |s| == |multiset(s)| == |multiset(t)| == |t|;
    if s != [] {
      assert s[0] in multiset(t) && t[0] in multiset(s);
      var i :| 0 <= i < |s| && s[i] == t[0];
      var j :| 0 <= j < |t| && t[j] == s[0];
    }
  }

  lemma {:induction false} SortedTail<T>(before: (T, T) -> bool, s: seq<T>)
    requires s != []
    ensures Sorted(before, s) ==> Sorted(before, s[1..])
    ensures Separates(before, s) ==> Separates(before, s[1..])
    ensures multiset(s[1..]) == multiset(s) - multiset{s[0]}
  {
    assert s == [s[0]] + s[1..];
  }

  /** Without ties the sorted order of a multiset is unique. */
  lemma {:induction false} SortedUnique<T(!new)>(before: (T, T) -> bool, s: seq<T>, t: seq<T>)
    requires StrictWeak(before) && Sorted(before, s) && Sorted(before, t)
    requires Separates(before, s) && multiset(s) == multiset(t)
    ensures s == t
  {
    hide StrictWeak, Sorted, Separates;
    SameHead(before, s, t);
    if s != [] {
      SortedTail(before, s);
      SortedTail(before, t);
      SortedUnique(before, s[1..], t[1..]);
      assert s == [s[0]] + s[1..] && t == [t[0]] + t[1..];
    }
  }
}
