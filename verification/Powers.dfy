/** Powers of two, alignment and bit scans over unbounded naturals: the
    big-integer arithmetic that range splitting relies on. */
module Powers {

  function Pow2(n: nat): (r: nat)
    ensures r >= 1
  {
    if n == 0 then 1 else 2 * Pow2(n - 1)
  }

  ghost predicate Aligned(x: nat, h: nat) {
    x % Pow2(h) == 0
  }

  /** Bit `index` of `x`, counted from the least significant one. */
  function Bit(x: nat, index: nat): nat {
    if index == 0 then x % 2 else Bit(x / 2, index - 1)
  }

  function BitLen(x: nat): nat {
    if x == 0 then 0 else 1 + BitLen(x / 2)
  }

  /** Number of low zero bits of `x`, at most `width` (which is the value for zero). */
  function TrailingZeros(x: nat, width: nat): (t: nat)
    ensures t <= width
  {
    if width == 0 || x % 2 == 1 then 0 else 1 + TrailingZeros(x / 2, width - 1)
  }

  lemma {:induction false} Pow2Monotone(a: nat, b: nat)
    requires a <= b
    ensures Pow2(a) <= Pow2(b)
    ensures a < b ==> 2 * Pow2(a) <= Pow2(b)
  {
    if a < b {
      Pow2Monotone(a, b - 1);
    }
  }

  lemma {:induction false} Pow2Adds(a: nat, b: nat)
    ensures Pow2(a + b) == Pow2(a) * Pow2(b)
  {
    if b > 0 {
      Pow2Adds(a, b - 1);
    }
  }

  lemma {:induction false} ModDouble(x: nat, m: nat)
    requires m >= 1
    ensures x % (2 * m) == 0 <==> x % 2 == 0 && (x / 2) % m == 0
  {
    var q, r := x / (2 * m), x % (2 * m);
    assert x == (2 * m) * q + r;
    var y := x / 2;
    var p, s := y / m, y % m;
    assert y == m * p + s;
    if r == 0 {
      assert x == 2 * (m * q);
      assert y == m * q;
      ModUnique(y, m, q, 0);
    }
    if x % 2 == 0 && s == 0 {
      assert x == 2 * y;
      assert 2 * (m * p) == (2 * m) * p;
      ModUnique(x, 2 * m, p, 0);
    }
  }

  lemma {:induction false} MulAtLeast(m: nat, d: int)
    requires d >= 1
    ensures m * d >= m
  {
  }

  lemma {:induction false} ModUnique(x: int, m: nat, q: int, r: int)
    requires m >= 1 && 0 <= r < m
    requires x == m * q + r
    ensures x / m == q && x % m == r
  {
    var q', r' := x / m, x % m;
    var d := q - q';
    assert m * d == r' - r by {
      assert x == m * q' + r';
      assert m * d == m * q - m * q';
    }
    if d >= 1 {
      MulAtLeast(m, d);
    } else if d <= -1 {
      MulAtLeast(m, -d);
    }
  }

  lemma {:induction false} ModSum(x: nat, y: nat, m: nat)
    requires m >= 1 && x % m == 0
    ensures (x + y) % m == y % m
  {
    var p, q, r := x / m, y / m, y % m;
    assert x == m * p && y == m * q + r;
    assert m * (p + q) == m * p + m * q;
    ModUnique(x + y, m, p + q, r);
  }

  /** Alignment peels off one bit at a time. */
  lemma {:induction false} AlignedStep(x: nat, h: nat)
    requires h >= 1
    ensures Aligned(x, h) <==> x % 2 == 0 && Aligned(x / 2, h - 1)
  {
    ModDouble(x, Pow2(h - 1));
  }

  lemma {:induction false} AlignedDown(x: nat, h: nat, k: nat)
    requires Aligned(x, h) && k <= h
    ensures Aligned(x, k)
  {
    if k > 0 {
      AlignedStep(x, h);
      AlignedDown(x / 2, h - 1, k - 1);
      AlignedStep(x, k);
    }
  }

  lemma {:induction false} AlignedSum(x: nat, y: nat, h: nat)
    requires Aligned(x, h)
    ensures Aligned(x + y, h) <==> Aligned(y, h)
  {
    ModSum(x, y, Pow2(h));
  }

  lemma {:induction false} AlignedPow2(k: nat, h: nat)
    requires h <= k
    ensures Aligned(Pow2(k), h)
  {
    ModUnique(Pow2(k), Pow2(k), 1, 0);
    AlignedDown(Pow2(k), k, h);
  }

  /** Two aligned numbers less than one block apart are equal. */
  lemma {:induction false} AlignedNear(x: nat, y: nat, h: nat)
    requires Aligned(x, h) && Aligned(y, h)
    requires x <= y < x + Pow2(h)
    ensures x == y
  {
    AlignedSum(x, y - x, h);
    ModUnique(y - x, Pow2(h), 0, y - x);
  }

  /** Stepping over an odd multiple of 2^h reaches a multiple of 2^(h+1). */
  lemma {:induction false} OddStep(x: nat, h: nat)
    requires Aligned(x, h) && !Aligned(x, h + 1)
    ensures Aligned(x + Pow2(h), h + 1)
  {
    if h == 0 {
      AlignedStep(x, 1);
      AlignedStep(x + 1, 1);
    } else {
      AlignedStep(x, h);
      AlignedStep(x, h + 1);
      OddStep(x / 2, h - 1);
      assert (x + Pow2(h)) / 2 == x / 2 + Pow2(h - 1);
      AlignedStep(x + Pow2(h), h + 1);
    }
  }

  /** The scan for low zero bits finds exactly the alignments of `x`. */
  lemma {:induction false} TrailingZerosIsAlignment(x: nat, width: nat, h: nat)
    ensures h <= TrailingZeros(x, width) <==> h <= width && Aligned(x, h)
  {
    if h > 0 {
      AlignedStep(x, h);
      if width > 0 && x % 2 == 0 {
        TrailingZerosIsAlignment(x / 2, width - 1, h - 1);
      }
    }
  }

  /** The first set bit is where the scan stops. */
  lemma {:induction false} TrailingZerosBit(x: nat, width: nat, index: nat)
    requires index < width
    requires forall i: nat :: i < index ==> Bit(x, i) == 0
    ensures if Bit(x, index) != 0 then TrailingZeros(x, width) == index else TrailingZeros(x, width) > index
  {
    if index == 0 {
    } else {
      assert Bit(x, 0) == 0;
      forall i: nat | i < index - 1
        ensures Bit(x / 2, i) == 0
      {
        assert Bit(x, i + 1) == 0;
      }
      TrailingZerosBit(x / 2, width - 1, index - 1);
    }
  }

  lemma {:induction false} BitLenBounds(x: nat)
    requires x > 0
    ensures BitLen(x) >= 1
    ensures Pow2(BitLen(x) - 1) <= x < Pow2(BitLen(x))
  {
    if x > 1 {
      BitLenBounds(x / 2);
    } else {
      assert BitLen(1) == 1;
    }
  }

  /** A power of two fits into `x` exactly when its exponent is below the bit length. */
  lemma {:induction false} BitLenIsLog(x: nat, h: nat)
    requires x > 0
    ensures h <= BitLen(x) - 1 <==> Pow2(h) <= x
  {
    BitLenBounds(x);
    if h <= BitLen(x) - 1 {
      Pow2Monotone(h, BitLen(x) - 1);
    } else {
      Pow2Monotone(BitLen(x), h);
    }
  }
}
