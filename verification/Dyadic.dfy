/** Dyadic arithmetic for the buddy allocator: powers of two, alignment, exclusive or,
    and the fact that dyadic intervals are either nested or disjoint. Everything is counted
    in base blocks of 64 bytes. */
module Dyadic {

  function Pow2(e: nat): (r: nat)
    ensures r >= 1
  {
    if e == 0 then 1 else 2 * Pow2(e - 1)
  }

  /** `a` is a multiple of `Pow2(k)`, by halving (see AlignedIsMultiple). */
  predicate Aligned(a: nat, k: nat) {
    k == 0 || (a % 2 == 0 && Aligned(a / 2, k - 1))
  }

  /** Bitwise exclusive or. */
  function Xor(a: nat, b: nat): nat
    decreases a + b
  {
    if a == 0 then b
    else if b == 0 then a
    else (a % 2 + b % 2) % 2 + 2 * Xor(a / 2, b / 2)
  }

  /** The other half of the aligned pair of blocks of level `k` that holds `a`. */
  function Buddy(a: nat, k: nat): int {
    if Aligned(a, k + 1) then a + Pow2(k) else a - Pow2(k)
  }

  lemma {:induction false} AlignedIsMultiple(a: nat, k: nat)
    ensures Aligned(a, k) <==> a % Pow2(k) == 0
  {
    if k > 0 {
      AlignedIsMultiple(a / 2, k - 1);
      HalfRemainder(a, Pow2(k - 1));
    }
  }

  /** Divisibility by an even number, one bit at a time. */
  lemma HalfRemainder(a: nat, p: nat)
    requires p > 0
    ensures a % (2 * p) == 0 <==> a % 2 == 0 && (a / 2) % p == 0
  {
    var q, r := a / (2 * p), a % (2 * p);
    var m := q * p;
    assert a == 2 * m + r by { assert q * (2 * p) == 2 * m; }
    assert a / 2 == m + r / 2 && a % 2 == r % 2;
    RemainderUnique(a / 2, p, q, r / 2);
  }

  lemma RemainderUnique(n: nat, p: nat, q: nat, r: nat)
    requires r < p && n == q * p + r
    ensures n % p == r
  {
    var d, m := n / p, n % p;
    assert n == d * p + m;
    if q > d {
      assert (q - d) * p == m - r;
      ProductAtLeast(q - d, p);
    } else if q < d {
      assert (d - q) * p == r - m;
      ProductAtLeast(d - q, p);
    }
  }

  lemma {:induction false} ProductAtLeast(q: nat, p: nat)
    requires q > 0
    ensures q * p >= p
  {
    assert q * p == (q - 1) * p + p;
  }

  lemma {:induction false} Pow2Monotone(k: nat, l: nat)
    requires k <= l
    ensures Pow2(k) <= Pow2(l)
    ensures k < l ==> 2 * Pow2(k) <= Pow2(l)
  {
    if k < l { Pow2Monotone(k, l - 1); }
  }

  lemma {:induction false} AlignedDown(a: nat, l: nat, k: nat)
    requires k <= l && Aligned(a, l)
    ensures Aligned(a, k)
  {
    if k > 0 { AlignedDown(a / 2, l - 1, k - 1); }
  }

  /** Distinct multiples of a block size are at least one block apart. */
  lemma {:induction false} AlignedGap(a: nat, b: nat, k: nat)
    requires Aligned(a, k) && Aligned(b, k) && a < b
    ensures a + Pow2(k) <= b
  {
    if k > 0 { AlignedGap(a / 2, b / 2, k - 1); }
  }

  lemma {:induction false} AlignedShift(a: nat, k: nat)
    requires Aligned(a, k)
    ensures Aligned(a + Pow2(k), k)
    ensures Aligned(a, k + 1) <==> !Aligned(a + Pow2(k), k + 1)
  {
    if k > 0 {
      AlignedShift(a / 2, k - 1);
      assert (a + Pow2(k)) / 2 == a / 2 + Pow2(k - 1);
    }
  }

  lemma {:induction false} AlignedUnshift(a: nat, k: nat)
    requires Aligned(a, k) && !Aligned(a, k + 1)
    ensures a >= Pow2(k) && Aligned(a - Pow2(k), k + 1)
  {
    if k > 0 {
      AlignedUnshift(a / 2, k - 1);
      assert (a - Pow2(k)) / 2 == a / 2 - Pow2(k - 1);
    }
  }

  lemma {:induction false} ZeroAligned(k: nat)
    ensures Aligned(0, k)
  {
    if k > 0 { ZeroAligned(k - 1); }
  }

  /** The buddy is the neighbour, is aligned alike, and is its own buddy's buddy. */
  lemma BuddyFacts(a: nat, k: nat)
    requires Aligned(a, k)
    ensures Buddy(a, k) >= 0 && Aligned(Buddy(a, k), k) && Buddy(Buddy(a, k), k) == a
    ensures Aligned(a, k + 1) <==> !Aligned(Buddy(a, k), k + 1)
    ensures Buddy(a, k) != a
  {
    AlignedShift(a, k);
    if !Aligned(a, k + 1) {
      AlignedUnshift(a, k);
      AlignedDown(a - Pow2(k), k + 1, k);
    }
  }

  lemma Pow2Step(k: nat)
    ensures Pow2(k + 1) == 2 * Pow2(k)
  {
  }

  /** The two halves of an aligned block are each other's buddies. */
  lemma Halves(a: nat, k: nat)
    requires Aligned(a, k + 1)
    ensures Aligned(a, k) && Aligned(a + Pow2(k), k) && !Aligned(a + Pow2(k), k + 1)
    ensures Buddy(a, k) == a + Pow2(k) && Buddy(a + Pow2(k), k) == a
  {
    AlignedDown(a, k + 1, k);
    AlignedShift(a, k);
  }

  /** `offset ^ block_size` is the buddy. */
  lemma {:induction false} XorIsBuddy(a: nat, k: nat)
    requires Aligned(a, k)
    ensures Xor(a, Pow2(k)) == Buddy(a, k)
  {
    if k == 0 {
      assert Aligned(a, 1) <==> a % 2 == 0;
      assert a > 0 ==> Xor(a, 1) == (a % 2 + 1) % 2 + 2 * Xor(a / 2, 0);
    } else if a == 0 {
      ZeroAligned(k + 1);
    } else {
      XorIsBuddy(a / 2, k - 1);
      assert Pow2(k) / 2 == Pow2(k - 1);
    }
  }

  /** Exclusive or commutes with scaling by 64, so block units and bytes agree. */
  lemma XorScaled(a: nat, b: nat)
    ensures Xor(2 * a, 2 * b) == 2 * Xor(a, b)
    ensures Xor(64 * a, 64 * b) == 64 * Xor(a, b)
  {
    hide Xor;
    XorDouble(a, b); XorDouble(2 * a, 2 * b); XorDouble(4 * a, 4 * b);
    XorDouble(8 * a, 8 * b); XorDouble(16 * a, 16 * b); XorDouble(32 * a, 32 * b);
  }

  lemma XorDouble(a: nat, b: nat)
    ensures Xor(2 * a, 2 * b) == 2 * Xor(a, b)
  {
  }

  /** Two dyadic intervals are nested or disjoint. */
  lemma Nested(a: nat, k: nat, b: nat, l: nat)
    requires k <= l && Aligned(a, k) && Aligned(b, l)
    ensures a + Pow2(k) <= b || b + Pow2(l) <= a || (b <= a && a + Pow2(k) <= b + Pow2(l))
  {
    hide Aligned, Pow2;
    AlignedDown(b, l, k);
    AlignedShift(b, l);
    AlignedDown(b + Pow2(l), l, k);
    if a < b {
      AlignedGap(a, b, k);
    } else if a < b + Pow2(l) {
      AlignedGap(a, b + Pow2(l), k);
    }
  }
}
