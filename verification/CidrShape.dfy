/** How many prefixes a range can need: sizes rise, then fall, so their number is linear in the width. */
module CidrShape {
  import opened Powers
  import opened Cidr

  /** Strictly growing up to index `peak`, no growth across it, strictly shrinking behind it. */
  ghost predicate RisesThenFalls(ps: seq<Prefix>, peak: nat) {
    && (forall i {:trigger ps[i]} :: 0 <= i < peak && i < |ps| - 1 ==> ps[i].HostBits() < ps[i + 1].HostBits())
    && (peak < |ps| - 1 ==> ps[peak].HostBits() >= ps[peak + 1].HostBits())
    && (forall i {:trigger ps[i]} :: peak < i < |ps| - 1 ==> ps[i].HostBits() > ps[i + 1].HostBits())
  }

  ghost predicate Falling(ps: seq<Prefix>) {
    forall i {:trigger ps[i]} :: 0 <= i < |ps| - 1 ==> ps[i].HostBits() > ps[i + 1].HostBits()
  }

  /** Once less than one aligned block is left, only the space left matters and blocks shrink. */
  lemma {:induction false} SplitFalls(current: nat, last: nat, width: nat, k: nat)
    requires Aligned(current, k) && k <= width && last + 1 < current + Pow2(k)
    ensures Falling(Split(current, last, width))
    ensures Split(current, last, width) != [] ==> Split(current, last, width)[0].HostBits() < k
    decreases last + 1 - current
  {
    if current <= last {
      var h := SplitUnfold(current, last, width);
      if h >= k {
        Pow2Monotone(k, h);
      } else {
        AlignedDown(current, k, h + 1);
        NextHostBitsIsLargest(current, last, width, h + 1);
        AlignedPow2(h, h);
        AlignedSum(current, Pow2(h), h);
        SplitFalls(current + Pow2(h), last, width, h);
        Prepend(Prefix(width, current, width - h), Split(current + Pow2(h), last, width));
      }
    }
  }

  lemma {:induction false} Prepend(p: Prefix, rest: seq<Prefix>)
    requires Falling(rest)
    requires rest != [] ==> p.HostBits() > rest[0].HostBits()
    ensures Falling([p] + rest)
  {
    var ps := [p] + rest;
    forall i {:trigger ps[i]} | 0 <= i < |ps| - 1
      ensures ps[i].HostBits() > ps[i + 1].HostBits()
    {
      if i > 0 {
        assert ps[i] == rest[i - 1] && ps[i + 1] == rest[i];
      }
    }
  }

  lemma {:induction false} PeakFirst(p: Prefix, rest: seq<Prefix>)
    requires Falling(rest)
    requires rest != [] ==> p.HostBits() >= rest[0].HostBits()
    ensures RisesThenFalls([p] + rest, 0)
  {
    var ps := [p] + rest;
    forall i {:trigger ps[i]} | 0 < i < |ps| - 1
      ensures ps[i].HostBits() > ps[i + 1].HostBits()
    {
      assert ps[i] == rest[i - 1] && ps[i + 1] == rest[i];
    }
  }

  lemma {:induction false} PeakLater(p: Prefix, rest: seq<Prefix>, peak: nat)
    requires RisesThenFalls(rest, peak) && rest != []
    requires p.HostBits() < rest[0].HostBits()
    ensures RisesThenFalls([p] + rest, peak + 1)
  {
    var ps := [p] + rest;
    assert forall i :: 0 < i < |ps| ==> ps[i] == rest[i - 1];
    forall i {:trigger ps[i]} | 0 <= i < |ps| - 1
      ensures i < peak + 1 ==> ps[i].HostBits() < ps[i + 1].HostBits()
      ensures i == peak + 1 ==> ps[i].HostBits() >= ps[i + 1].HostBits()
      ensures i > peak + 1 ==> ps[i].HostBits() > ps[i + 1].HostBits()
    {
      if i > 0 {
        assert ps[i] == rest[i - 1] && ps[i + 1] == rest[i];
      }
    }
  }

  lemma {:induction false} EmptySplit(current: nat, last: nat, width: nat)
    requires current > last
    ensures Split(current, last, width) == [] && Falling(Split(current, last, width))
  {
  }

  /** Block sizes rise to a peak, used at most twice, and then fall. */
  lemma {:induction false} SplitRisesThenFalls(first: nat, last: nat, width: nat) returns (peak: nat)
    requires first <= last < Pow2(width)
    ensures peak < |Split(first, last, width)|
    ensures RisesThenFalls(Split(first, last, width), peak)
    decreases last + 1 - first
  {
    hide Split, NextHostBits, Aligned, RisesThenFalls, Falling;
    var h := SplitUnfold(first, last, width);
    var next, rest := first + Pow2(h), Split(first + Pow2(h), last, width);
    var p := Prefix(width, first, width - h);
    peak := 0;
    if h == width {
      EmptySplit(next, last, width);
      PeakFirst(p, rest);
    } else if Aligned(first, h + 1) {
      NextHostBitsIsLargest(first, last, width, h + 1);
      AlignedPow2(h, h);
      AlignedSum(first, Pow2(h), h);
      SplitFalls(next, last, width, h);
      PeakFirst(p, rest);
    } else {
      OddStep(first, h);
      if last + 1 < next + Pow2(h + 1) {
        SplitFalls(next, last, width, h + 1);
        PeakFirst(p, rest);
      } else {
        NextHostBitsIsLargest(next, last, width, h + 1);
        var h' := SplitUnfold(next, last, width);
        peak := SplitRisesThenFalls(next, last, width);
        PeakLater(p, rest, peak);
        peak := peak + 1;
      }
    }
  }

  // ----- The bound

  lemma {:induction false} ClimbLength(ps: seq<Prefix>, peak: nat, i: nat)
    requires RisesThenFalls(ps, peak) && i <= peak < |ps|
    ensures i <= ps[i].HostBits()
  {
    hide Prefix.HostBits;
    if i > 0 {
      ClimbLength(ps, peak, i - 1);
      assert ps[i - 1].HostBits() < ps[(i - 1) + 1].HostBits();
    }
  }

  lemma {:induction false} DescentLength(ps: seq<Prefix>, peak: nat, i: nat)
    requires RisesThenFalls(ps, peak) && peak < i < |ps|
    ensures |ps| - 1 - i <= ps[i].HostBits()
    decreases |ps| - i
  {
    hide Prefix.HostBits;
    if i < |ps| - 1 {
      DescentLength(ps, peak, i + 1);
    }
  }

  lemma {:induction false} LengthFromPeak(ps: seq<Prefix>, peak: nat, top: nat)
    requires RisesThenFalls(ps, peak) && peak < |ps|
    requires peak < |ps| - 1 ==> ps[peak + 1].HostBits() <= top
    ensures |ps| <= peak + 1 || |ps| <= peak + top + 2
    ensures peak <= ps[peak].HostBits()
  {
    ClimbLength(ps, peak, peak);
    if peak < |ps| - 1 {
      DescentLength(ps, peak, peak + 1);
    }
  }

  /** A block of half the address space is the low half or the high half. */
  lemma {:induction false} HalfBlock(a: nat, width: nat)
    requires width >= 1 && Aligned(a, width - 1) && a < Pow2(width)
    ensures a == 0 || a == Pow2(width - 1)
  {
    var half := Pow2(width - 1);
    assert Pow2(width) == 2 * half;
    AlignedPow2(width - 1, width - 1);
    if a < half {
      ModUnique(0, half, 0, 0);
      AlignedNear(0, a, width - 1);
    } else {
      AlignedNear(half, a, width - 1);
    }
  }

  lemma {:induction false} StartsAtZero(first: nat, last: nat, width: nat, i: nat)
    requires last < Pow2(width) && i < |Split(first, last, width)|
    requires Split(first, last, width)[i].address == 0
    ensures i == 0 && first == 0
  {
    SplitTiles(first, last, width, i);
    if i > 0 {
      SplitOrdered(first, last, width, 0, i);
    }
  }

  lemma {:induction false} ReachesTop(first: nat, last: nat, width: nat, i: nat)
    requires last < Pow2(width) && i < |Split(first, last, width)|
    requires Split(first, last, width)[i].End() >= Pow2(width)
    ensures i == |Split(first, last, width)| - 1
  {
    if i < |Split(first, last, width)| - 1 {
      SplitTiles(first, last, width, i + 1);
      SplitTiles(first, last, width, i);
    }
  }

  /** Behind the low half there is no second half block: both together are the whole space. */
  lemma {:induction false} LowHalfThenSmaller(last: nat, width: nat)
    requires width >= 1 && last < Pow2(width)
    requires |Split(0, last, width)| > 1 && Split(0, last, width)[0].HostBits() == width - 1
    ensures Split(0, last, width)[1].HostBits() <= width - 2
  {
    var ps := Split(0, last, width);
    SplitTiles(0, last, width, 0);
    SplitTiles(0, last, width, 1);
    if ps[1].HostBits() >= width - 1 {
      Pow2Monotone(width - 1, ps[1].HostBits());
      assert last + 1 == Pow2(width);
      ModUnique(0, Pow2(width), 0, 0);
      NextHostBitsIsLargest(0, last, width, width);
    }
  }

  /** A half block at the peak is the first or the last prefix. */
  lemma {:induction false} HalfPeakLength(first: nat, last: nat, width: nat, peak: nat)
    requires width >= 2 && last < Pow2(width) && peak < |Split(first, last, width)|
    requires RisesThenFalls(Split(first, last, width), peak) && Split(first, last, width)[peak].HostBits() == width - 1
    ensures |Split(first, last, width)| <= 2 * width - 2
  {
    var ps := Split(first, last, width);
    SplitTiles(first, last, width, peak);
    HalfBlock(ps[peak].address, width);
    if ps[peak].address == 0 {
      StartsAtZero(first, last, width, peak);
      if |ps| > 1 {
        LowHalfThenSmaller(last, width);
      }
      LengthFromPeak(ps, peak, width - 2);
    } else {
      ReachesTop(first, last, width, peak);
      LengthFromPeak(ps, peak, width - 1);
    }
  }

  /** At most 2*width - 2 prefixes: 62 for IPv4 and 254 for IPv6. */
  lemma {:induction false} SplitLength(first: nat, last: nat, width: nat)
    requires width >= 2 && last < Pow2(width)
    ensures |Split(first, last, width)| <= 2 * width - 2
  {
    hide Split, Pow2, Aligned;
    if first > last {
      SplitEmpty(first, last, width);
    } else {
      var ps := Split(first, last, width);
      var peak := SplitRisesThenFalls(first, last, width);
      SplitTiles(first, last, width, peak);
      var top := ps[peak].HostBits();
      if top <= width - 2 {
        LengthFromPeak(ps, peak, width - 2);
      } else if top == width - 1 {
        HalfPeakLength(first, last, width, peak);
      } else {
        ModUnique(0, Pow2(width), 0, 0);
        WholeSpace(first, last, width, peak);
      }
    }
  }

  /** A block of the whole space is the only prefix. */
  lemma {:induction false} WholeSpace(first: nat, last: nat, width: nat, i: nat)
    requires last < Pow2(width) && i < |Split(first, last, width)| && Split(first, last, width)[i].HostBits() == width
    ensures |Split(first, last, width)| == 1
  {
    var p := Split(first, last, width)[i];
    SplitTiles(first, last, width, i);
    ModUnique(0, Pow2(width), 0, 0);
    AlignedNear(0, p.address, width);
    StartsAtZero(first, last, width, i);
    ReachesTop(first, last, width, i);
  }

  // ----- The bound is reached

  lemma {:induction false} WorstCaseDescent(width: nat, k: nat)
    requires 1 <= k <= width
    ensures Pow2(width) >= Pow2(k)
    ensures |Split(Pow2(width) - Pow2(k), Pow2(width) - 2, width)| == k
    decreases k
  {
    hide Split, NextHostBits, Aligned;
    Pow2Monotone(k, width);
    Pow2Monotone(1, width);
    var last, current, half := Pow2(width) - 2, Pow2(width) - Pow2(k), Pow2(k - 1);
    assert Pow2(k) == 2 * half;
    AlignedComplement(width, k);
    AlignedDown(current, k, k - 1);
    NextHostBitsIsLargest(current, last, width, k - 1);
    NextHostBitsIsLargest(current, last, width, k);
    assert current + half == Pow2(width) - half && last + 1 == Pow2(width) - 1;
    assert NextHostBits(current, last, width) == k - 1;
    var h := SplitUnfold(current, last, width);
    if k > 1 {
      WorstCaseDescent(width, k - 1);
    } else {
      SplitEmpty(current + half, last, width);
    }
  }

  lemma {:induction false} WorstCaseClimb(width: nat, k: nat)
    requires k < width && Pow2(width) >= 2
    ensures |Split(Pow2(k), Pow2(width) - 2, width)| == 2 * width - 2 - k
    decreases width - k
  {
    if k == width - 1 {
      assert Pow2(width) - Pow2(k) == Pow2(k);
      if k == 0 {
        assert |Split(1, 0, 1)| == 0;
      } else {
        WorstCaseDescent(width, k);
      }
    } else {
      ClimbStep(width, k);
      var h := SplitUnfold(Pow2(k), Pow2(width) - 2, width);
      WorstCaseClimb(width, k + 1);
    }
  }

  lemma {:induction false} ClimbStep(width: nat, k: nat)
    requires k + 1 < width
    ensures Pow2(k) <= Pow2(width) - 2
    ensures NextHostBits(Pow2(k), Pow2(width) - 2, width) == k
    ensures Pow2(k) + Pow2(k) == Pow2(k + 1)
  {
    Pow2Monotone(k + 2, width);
    AlignedPow2(k, k);
    NotAlignedAbove(k);
    assert Pow2(k + 2) == 4 * Pow2(k);
    var last := Pow2(width) - 2;
    NextHostBitsIsLargest(Pow2(k), last, width, k);
    NextHostBitsIsLargest(Pow2(k), last, width, k + 1);
  }

  lemma {:induction false} NotAlignedAbove(k: nat)
    ensures !Aligned(Pow2(k), k + 1)
  {
    ModUnique(Pow2(k), Pow2(k + 1), 0, Pow2(k));
  }

  /** All addresses but the first and the last need the full number of prefixes. */
  lemma {:induction false} SplitLengthIsTight(width: nat)
    requires width >= 2
    ensures Pow2(width) >= 2
    ensures |Split(1, Pow2(width) - 2, width)| == 2 * width - 2
  {
    Pow2Monotone(1, width);
    WorstCaseClimb(width, 0);
  }

  lemma {:induction false} AlignedComplement(width: nat, k: nat)
    requires k <= width
    ensures Pow2(width) >= Pow2(k) && Aligned(Pow2(width) - Pow2(k), k)
  {
    Pow2Monotone(k, width);
    AlignedPow2(width, k);
    AlignedPow2(k, k);
    AlignedSum(Pow2(k), Pow2(width) - Pow2(k), k);
  }
}
