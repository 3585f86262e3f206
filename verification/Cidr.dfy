/** The range splitter: an address interval as a shortest list of prefixes. */
module Cidr {
  import opened Powers

  /** A prefix as section 3.1 of RFC 4632 and section 2.3 of RFC 4291 write it:
      the top `length` of `width` address bits are fixed. */
  datatype Prefix = Prefix(width: nat, address: nat, length: nat) {

    function HostBits(): nat {
      if length <= width then width - length else 0
    }

    /** First address behind the prefix. */
    function End(): nat {
      address + Pow2(HostBits())
    }

    predicate Contains(a: nat) {
      address <= a < End()
    }

    ghost predicate WellFormed() {
      && length <= width
      && Aligned(address, HostBits())
      && address < Pow2(width)
    }
  }

  /** Host bits of the next prefix: low zero bits of `current`, capped by the space left. */
  function NextHostBits(current: nat, last: nat, width: nat): (h: nat)
    requires current <= last
    ensures h <= width
  {
    var trailing, room := TrailingZeros(current, width), BitLen(last - current + 1) - 1;
    if room < trailing then (BitLenBounds(last - current + 1); room) else trailing
  }

  /** Exactly the exponents of aligned blocks that start at `current` and stay inside the range. */
  lemma {:induction false} NextHostBitsIsLargest(current: nat, last: nat, width: nat, h: nat)
    requires current <= last
    ensures h <= NextHostBits(current, last, width) <==>
            h <= width && Aligned(current, h) && current + Pow2(h) <= last + 1
  {
    TrailingZerosIsAlignment(current, width, h);
    BitLenIsLog(last - current + 1, h);
  }

  function Split(current: nat, last: nat, width: nat): seq<Prefix>
    decreases last + 1 - current
  {
    if current > last then []
    else
      var h := NextHostBits(current, last, width);
      NextHostBitsIsLargest(current, last, width, h);
      [Prefix(width, current, width - h)] + Split(current + Pow2(h), last, width)
  }

  /** The inner loop of the source: look for the lowest set bit. */
  method LowZeroBits(current: nat, width: nat) returns (trailing: nat)
    ensures trailing == TrailingZeros(current, width)
  {
    trailing := width;
    for index := 0 to width
      invariant trailing == width
      invariant forall i: nat :: i < index ==> Bit(current, i) == 0
    {
      TrailingZerosBit(current, width, index);
      if Bit(current, index) != 0 {
        trailing := index;
        break;
      }
    }
    AllZeroBits(current, width, trailing);
  }

  /** The loop of the source: emit the largest prefix that fits, step behind it, repeat. */
  method SummarizeRange(first: nat, last: nat, width: nat) returns (result: seq<Prefix>)
    requires first < Pow2(width) && last < Pow2(width)
    ensures result == Split(first, last, width)
  {
    hide Pow2, TrailingZeros, Split;
    var current := first;
    result := [];
    assert result + Split(current, last, width) == Split(first, last, width);
    while current <= last
      invariant result + Split(current, last, width) == Split(first, last, width)
      decreases last + 1 - current
    {
      var trailing := LowZeroBits(current, width);
      var remaining := last - current;
      remaining := remaining + 1;
      BitLenBounds(remaining);
      var maxByRemaining := BitLen(remaining) - 1;
      var hostBits := trailing;
      if maxByRemaining < hostBits {
        hostBits := maxByRemaining;
      }
      ghost var h := SplitUnfold(current, last, width);
      result := result + [Prefix(width, current, width - hostBits)];
      current := current + Pow2(hostBits);
    }
    SplitEmpty(current, last, width);
  }

  lemma {:induction false} SplitEmpty(current: nat, last: nat, width: nat)
    requires current > last
    ensures Split(current, last, width) == []
  {
  }

  lemma {:induction false} SplitUnfold(first: nat, last: nat, width: nat) returns (h: nat)
    requires first <= last
    ensures h == NextHostBits(first, last, width) <= width
    ensures Aligned(first, h) && first + Pow2(h) <= last + 1
    ensures Split(first, last, width) == [Prefix(width, first, width - h)] + Split(first + Pow2(h), last, width)
  {
    h := NextHostBits(first, last, width);
    NextHostBitsIsLargest(first, last, width, h);
  }

  lemma {:induction false} AllZeroBits(x: nat, width: nat, trailing: nat)
    requires trailing <= width
    requires forall i: nat :: i < trailing ==> Bit(x, i) == 0
    requires trailing < width ==> Bit(x, trailing) != 0
    ensures TrailingZeros(x, width) == trailing
  {
    if trailing < width {
      TrailingZerosBit(x, width, trailing);
    } else if width > 0 {
      TrailingZerosBit(x, width, width - 1);
    }
  }

  // ----- Exact cover

  /** Every emitted prefix is aligned, fits the address width and stays inside the range; the next
      one starts where it ends, the first one at `first`, and the last one ends behind `last`. */
  lemma {:induction false} SplitTiles(first: nat, last: nat, width: nat, i: nat)
    requires last < Pow2(width) && i < |Split(first, last, width)|
    ensures var ps := Split(first, last, width);
            && ps[i].width == width && ps[i].WellFormed()
            && first <= ps[i].address && ps[i].End() <= last + 1
            && (i == 0 ==> ps[i].address == first)
            && (if i == |ps| - 1 then ps[i].End() == last + 1 else ps[i + 1].address == ps[i].End())
    decreases i
  {
    var h := SplitUnfold(first, last, width);
    var next := first + Pow2(h);
    if i == 0 {
      if next <= last {
        SplitTiles'(next, last, width);
      }
    } else {
      SplitTiles(next, last, width, i - 1);
    }
  }

  lemma {:induction false} SplitTiles'(first: nat, last: nat, width: nat)
    requires first <= last
    ensures |Split(first, last, width)| > 0 && Split(first, last, width)[0].address == first
  {
    var h := SplitUnfold(first, last, width);
  }

  /** Later prefixes lie behind earlier ones. */
  lemma {:induction false} SplitOrdered(first: nat, last: nat, width: nat, i: nat, j: nat)
    requires last < Pow2(width) && i < j < |Split(first, last, width)|
    ensures Split(first, last, width)[i].End() <= Split(first, last, width)[j].address
    decreases i
  {
    hide Pow2, Aligned, NextHostBits;
    var h := SplitUnfold(first, last, width);
    if i == 0 {
      SplitTiles(first + Pow2(h), last, width, j - 1);
    } else {
      SplitOrdered(first + Pow2(h), last, width, i - 1, j - 1);
    }
  }

  /** Some emitted prefix contains any address of the range ... */
  lemma {:induction false} SplitLocate(first: nat, last: nat, width: nat, a: nat) returns (i: nat)
    requires first <= a <= last
    ensures i < |Split(first, last, width)|
    ensures Split(first, last, width)[i].Contains(a)
    decreases last + 1 - first
  {
    var h := SplitUnfold(first, last, width);
    if a < first + Pow2(h) {
      i := 0;
    } else {
      i := SplitLocate(first + Pow2(h), last, width, a);
      i := i + 1;
    }
  }

  ghost predicate Matches(ps: seq<Prefix>, a: nat) {
    exists p <- ps :: p.Contains(a)
  }

  /** ... and none contains an address outside it: the cover is exact. */
  lemma {:induction false} SplitIsExact(first: nat, last: nat, width: nat, a: nat)
    requires last < Pow2(width)
    ensures Matches(Split(first, last, width), a) <==> first <= a <= last
  {
    var ps := Split(first, last, width);
    if first <= a <= last {
      var i := SplitLocate(first, last, width, a);
      if first <= last {
        SplitTiles(first, last, width, i);
      }
      assert ps[i] in ps;
    }
    if Matches(ps, a) {
      var p :| p in ps && p.Contains(a);
      var i :| 0 <= i < |ps| && ps[i] == p;
      SplitTiles(first, last, width, i);
    }
  }

  /** No address is covered twice. */
  lemma {:induction false} SplitDisjoint(first: nat, last: nat, width: nat, i: nat, j: nat, a: nat)
    requires last < Pow2(width)
    requires i < |Split(first, last, width)| && j < |Split(first, last, width)|
    requires Split(first, last, width)[i].Contains(a)
    requires Split(first, last, width)[j].Contains(a)
    ensures i == j
  {
    SplitTiles(first, last, width, i);
    SplitTiles(first, last, width, j);
    if i < j {
      SplitOrdered(first, last, width, i, j);
    } else if j < i {
      SplitOrdered(first, last, width, j, i);
    }
  }

  // ----- Optimality

  /** Any list of prefixes whose union is exactly [first, last]. */
  ghost predicate Covers(ps: seq<Prefix>, first: nat, last: nat, width: nat) {
    && (forall p <- ps :: p.width == width && p.WellFormed() && first <= p.address && p.End() <= last + 1)
    && (forall a: nat {:trigger Matches(ps, a)} :: first <= a <= last ==> Matches(ps, a))
  }

  /** Every aligned block inside the range lies inside one emitted prefix. */
  lemma {:induction false} BlockInsideSplit(q: Prefix, first: nat, last: nat, width: nat) returns (i: nat)
    requires q.WellFormed() && q.width == width && first <= q.address && q.End() <= last + 1
    ensures i < |Split(first, last, width)|
    ensures var p := Split(first, last, width)[i];
            p.address <= q.address && q.End() <= p.End()
    decreases last + 1 - first
  {
    var h := SplitUnfold(first, last, width);
    var b, k := q.address, q.HostBits();
    if b >= first + Pow2(h) {
      i := BlockInsideSplit(q, first + Pow2(h), last, width);
      i := i + 1;
    } else {
      i := 0;
      SmallerBlock(b, k, first, last, width, h);
    }
  }

  lemma {:induction false} SmallerBlock(b: nat, k: nat, first: nat, last: nat, width: nat, h: nat)
    requires first <= b < first + Pow2(h) && k <= width && Aligned(b, k) && b + Pow2(k) <= last + 1
    requires h == NextHostBits(first, last, width) && Aligned(first, h)
    ensures b + Pow2(k) <= first + Pow2(h)
  {
    if k > h {
      // Then b == first, and a block larger than the greedy one would fit there.
      AlignedDown(b, k, h);
      AlignedNear(first, b, h);
      NextHostBitsIsLargest(first, last, width, k);
    } else {
      // b and the end of the emitted block are both multiples of 2^k.
      AlignedDown(first, h, k);
      AlignedPow2(h, k);
      AlignedSum(first, Pow2(h), k);
      if first + Pow2(h) < b + Pow2(k) {
        AlignedNear(b, first + Pow2(h), k);
      }
    }
  }

  /** The cover's block that holds the first address of emitted prefix `i`; it lies inside that prefix. */
  lemma {:induction false} OwnerOf(cover: seq<Prefix>, first: nat, last: nat, width: nat, i: nat) returns (j: nat)
    requires last < Pow2(width) && Covers(cover, first, last, width)
    requires i < |Split(first, last, width)|
    ensures j < |cover| && cover[j].width == width && cover[j].WellFormed()
    ensures var p := Split(first, last, width)[i];
            p.address <= cover[j].address && cover[j].End() <= p.End()
  {
    var ps := Split(first, last, width);
    SplitTiles(first, last, width, i);
    var start := ps[i].address;
    assert Matches(cover, start);
    var q :| q in cover && q.Contains(start);
    j :| 0 <= j < |cover| && cover[j] == q;
    var k := BlockInsideSplit(q, first, last, width);
    SplitDisjoint(first, last, width, i, k, start);
  }

  /** Greedy is optimal: no list of prefixes with the same union is shorter. */
  lemma {:induction false} SplitIsShortest(cover: seq<Prefix>, first: nat, last: nat, width: nat)
    requires last < Pow2(width) && Covers(cover, first, last, width)
    ensures |Split(first, last, width)| <= |cover|
  {
    var owners := OwnersUpTo(cover, first, last, width, |Split(first, last, width)|);
    BoundedSet(owners, |cover|);
  }

  lemma {:induction false} OwnersUpTo(cover: seq<Prefix>, first: nat, last: nat, width: nat, n: nat)
    returns (owners: set<nat>)
    requires last < Pow2(width) && Covers(cover, first, last, width)
    requires n <= |Split(first, last, width)|
    ensures |owners| == n
    ensures forall j <- owners :: j < |cover|
    ensures forall j <- owners :: n > 0 && var p := Split(first, last, width)[n - 1];
            cover[j].End() <= p.End()
  {
    if n == 0 {
      owners := {};
    } else {
      var before := OwnersUpTo(cover, first, last, width, n - 1);
      var j := OwnerOf(cover, first, last, width, n - 1);
      if n > 1 {
        SplitOrdered(first, last, width, n - 2, n - 1);
      }
      owners := before + {j};
    }
  }

  lemma {:induction false} BoundedSet(s: set<nat>, n: nat)
    requires forall x <- s :: x < n
    ensures |s| <= n
  {
    if n > 0 {
      BoundedSet(s - {n - 1}, n - 1);
    } else {
      assert s == {};
    }
  }
}
