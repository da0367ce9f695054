/** Powers of two and the bit operations the kernel applies to page indices. */
module Arith {

  const WORD: nat := 0x1_0000_0000_0000_0000  // 2^64, one more than the largest unsigned long

  function Pow2(k: nat): (r: nat)
    ensures r >= 1
  {
    if k == 0 then 1 else 2 * Pow2(k - 1)
  }

  /** Bitwise exclusive or on naturals, one bit at a time. */
  function Xor(a: nat, b: nat): nat
    decreases a + b
  {
    if a == 0 && b == 0 then 0
    else (a % 2 + b % 2) % 2 + 2 * Xor(a / 2, b / 2)
  }

  lemma {:induction false} Pow2Split(j: nat, k: nat)
    requires j <= k
    ensures Pow2(k) == Pow2(k - j) * Pow2(j)
    decreases k - j
  {
    if j < k {
      Pow2Split(j, k - 1);
      assert Pow2(k) == 2 * (Pow2(k - 1 - j) * Pow2(j));
    }
  }

  lemma {:induction false} Pow2Monotone(j: nat, k: nat)
    requires j <= k
    ensures Pow2(j) <= Pow2(k)
    decreases k - j
  {
    if j < k {
      Pow2Monotone(j, k - 1);
    }
  }

  lemma {:induction false} XorZero(a: nat)
    ensures Xor(a, 0) == a
  {
    if a > 0 {
      XorZero(a / 2);
    }
  }

  /** The low k bits of i are zero. */
  predicate Aligned(i: nat, k: nat) {
    k == 0 || (i % 2 == 0 && Aligned(i / 2, k - 1))
  }

  lemma {:induction false} AlignedIsMultiple(i: nat, k: nat)
    ensures Aligned(i, k) <==> i % Pow2(k) == 0
  {
    if k > 0 {
      AlignedIsMultiple(i / 2, k - 1);
      HalfRemainder(i, Pow2(k - 1));
    }
  }

  lemma HalfRemainder(i: nat, p: nat)
    requires p > 0
    ensures i % (2 * p) == 0 <==> i % 2 == 0 && i / 2 % p == 0
  {
    var h := i / 2;
    var q, r := h / p, h % p;
    assert h == q * p + r;
    MulAssoc(q, 2, p);
    assert i == q * (2 * p) + (2 * r + i % 2);
    DivUnique(i, 2 * p, q, 2 * r + i % 2);
  }

  lemma MultipleAligned(q: nat, k: nat)
    ensures Aligned(q * Pow2(k), k)
  {
    MulMod(q, Pow2(k));
    AlignedIsMultiple(q * Pow2(k), k);
  }

  lemma {:induction false} MulMod(q: nat, m: nat)
    requires m > 0
    ensures (q * m) % m == 0 && (q * m) / m == q
  {
    if q > 0 {
      MulMod(q - 1, m);
      assert q * m == (q - 1) * m + m;
      AddMod((q - 1) * m, m);
    }
  }

  lemma AddMod(x: nat, m: nat)
    requires m > 0
    ensures (x + m) % m == x % m && (x + m) / m == x / m + 1
  {
    var q, r := x / m, x % m;
    assert x == q * m + r;
    assert x + m == (q + 1) * m + r;
    DivUnique(x + m, m, q + 1, r);
  }

  lemma {:induction false} MulMonotone(a: nat, b: nat, m: nat)
    requires a <= b
    ensures a * m <= b * m
  {
    if m > 0 {
      MulMonotone(a, b, m - 1);
      assert a * m == a * (m - 1) + a && b * m == b * (m - 1) + b;
    }
  }

  lemma MulSucc(a: nat, m: nat)
    ensures (a + 1) * m == a * m + m
  {
  }

  lemma DivUnique(x: nat, m: nat, q: nat, r: nat)
    requires m > 0 && r < m && x == q * m + r
    ensures x / m == q && x % m == r
  {
    var q', r' := x / m, x % m;
    assert q' * m + r' == q * m + r;
    MulSucc(q', m);
    MulSucc(q, m);
    if q' < q {
      MulMonotone(q' + 1, q, m);
    } else if q' > q {
      MulMonotone(q + 1, q', m);
    }
  }

  /** An index aligned to a block size is aligned to every smaller one. */
  lemma AlignedDown(i: nat, j: nat, k: nat)
    requires j <= k && Aligned(i, k)
    ensures Aligned(i, j)
  {
    AlignedIsMultiple(i, k);
    Pow2Split(j, k);
    var q := i / Pow2(k);
    Quotient(i, Pow2(k));
    MulAssoc(q, Pow2(k - j), Pow2(j));
    MultipleAligned(q * Pow2(k - j), j);
  }

  /** Aligned blocks are laminar: nested or disjoint. */
  lemma Laminar(i: nat, k: nat, j: nat, m: nat)
    requires Aligned(i, k) && Aligned(j, m) && k <= m
    ensures || (j <= i && i + Pow2(k) <= j + Pow2(m))
            || i + Pow2(k) <= j
            || j + Pow2(m) <= i
  {
    AlignedDown(j, k, m);
    Pow2Split(k, m);
    AlignedIsMultiple(i, k);
    AlignedIsMultiple(j, k);
    LaminarCore(i, Pow2(k), j, Pow2(m), Pow2(m - k));
  }

  lemma LaminarCore(i: nat, p: nat, j: nat, size: nat, c: nat)
    requires p > 0 && i % p == 0 && j % p == 0 && size == c * p
    ensures (j <= i && i + p <= j + size) || i + p <= j || j + size <= i
  {
    Quotient(i, p);
    Quotient(j, p);
    LaminarMultiples(i / p, j / p, c, p);
  }

  lemma Quotient(i: nat, p: nat)
    requires p > 0 && i % p == 0
    ensures i == (i / p) * p
  {
  }

  lemma LaminarMultiples(a: nat, b: nat, c: nat, p: nat)
    requires p > 0
    ensures || (b * p <= a * p && a * p + p <= b * p + c * p)
            || a * p + p <= b * p
            || b * p + c * p <= a * p
  {
    assert (b + c) * p == b * p + c * p;
    if a * p < b * p {
      StepMultiple(a, b, p);
    } else if a * p < (b + c) * p {
      StepMultiple(a, b + c, p);
    }
  }

  lemma StepMultiple(a: nat, b: nat, p: nat)
    requires p > 0 && a * p < b * p
    ensures a * p + p <= b * p
  {
    MulSucc(a, p);
    if b <= a {
      MulMonotone(b, a, p);
    } else {
      MulMonotone(a + 1, b, p);
    }
  }

  /** Index of the other half of the order-(k+1) block that holds the order-k block at i. */
  function BuddyOf(i: nat, k: nat): int {
    if Aligned(i, k + 1) then i + Pow2(k) else i - Pow2(k)
  }

  /** Start of the order-(k+1) block that holds the order-k block at i. */
  function ParentOf(i: nat, k: nat): int {
    if Aligned(i, k + 1) then i else i - Pow2(k)
  }

  lemma Family(i: nat, k: nat)
    requires Aligned(i, k)
    ensures 0 <= ParentOf(i, k) <= i && Aligned(ParentOf(i, k), k + 1)
    ensures 0 <= BuddyOf(i, k) && Aligned(BuddyOf(i, k), k)
    ensures BuddyOf(BuddyOf(i, k), k) == i && ParentOf(BuddyOf(i, k), k) == ParentOf(i, k)
    ensures ParentOf(i, k) == (if BuddyOf(i, k) < i then BuddyOf(i, k) else i)
  {
    var lo := Parent(i, k);
  }

  /** The start of the aligned order-(k+1) block of which i starts a half. */
  lemma Parent(i: nat, k: nat) returns (lo: nat)
    requires Aligned(i, k)
    ensures i == lo || i == lo + Pow2(k)
    ensures Aligned(lo, k) && Aligned(lo + Pow2(k), k) && Aligned(lo, k + 1) && !Aligned(lo + Pow2(k), k + 1)
  {
    hide Pow2, Aligned;
    var q := Multiple(i, k);
    var h := if q % 2 == 0 then q else q - 1;
    Halves(h, k);
    lo := h * Pow2(k);
  }

  lemma Multiple(i: nat, k: nat) returns (q: nat)
    requires Aligned(i, k)
    ensures i == q * Pow2(k)
  {
    AlignedIsMultiple(i, k);
    q := i / Pow2(k);
    Quotient(i, Pow2(k));
  }

  /** The two halves of the order-(k+1) block with an even quotient q. */
  lemma Halves(q: nat, k: nat)
    requires q % 2 == 0
    ensures var lo, hi := q * Pow2(k), (q + 1) * Pow2(k);
            && hi == lo + Pow2(k) && Aligned(lo, k) && Aligned(hi, k)
            && Aligned(lo, k + 1) && !Aligned(hi, k + 1)
  {
    HalfParity(q, k);
    HalfParity(q + 1, k);
    MulSucc(q, Pow2(k));
    MultipleAligned(q, k);
    MultipleAligned(q + 1, k);
  }

  lemma MulAssoc(a: nat, b: nat, c: nat)
    ensures a * (b * c) == (a * b) * c
  {
  }

  lemma HalfParity(q: nat, k: nat)
    ensures Aligned(q * Pow2(k), k + 1) <==> q % 2 == 0
  {
    var p := Pow2(k);
    var h := q / 2;
    MulAssoc(h, 2, p);
    AlignedIsMultiple(q * p, k + 1);
    if q % 2 == 0 {
      assert q == h * 2;
      DivUnique(q * p, 2 * p, h, 0);
    } else {
      assert q == h * 2 + 1;
      MulSucc(h * 2, p);
      DivUnique(q * p, 2 * p, h, p);
    }
  }

  /** Flipping bit k of an index aligned to 2^k gives the index of the buddy block. */
  lemma {:induction false} XorIsBuddy(i: nat, k: nat)
    requires Aligned(i, k)
    ensures Xor(i, Pow2(k)) == BuddyOf(i, k)
  {
    if k == 0 {
      assert Aligned(i, 1) <==> i % 2 == 0;
      XorZero(i / 2);
    } else {
      XorIsBuddy(i / 2, k - 1);
      XorEven(i, Pow2(k - 1));
      assert Aligned(i, k + 1) <==> Aligned(i / 2, k);
    }
  }

  lemma XorEven(i: nat, p: nat)
    requires i % 2 == 0
    ensures Xor(i, 2 * p) == 2 * Xor(i / 2, p)
  {
    assert (2 * p) / 2 == p && (2 * p) % 2 == 0;
  }
}
