/** Unsigned machine words as natural numbers, read bit by bit.
    The bitwise operators are defined by recursion on the binary digits, so that
    masking, setting and clearing bits mean what the C operators mean. */
module Bits {

  const TWO_32: nat := 0x1_0000_0000

  function Pow2(k: nat): (r: nat)
    ensures r > 0
  {
    if k == 0 then 1 else 2 * Pow2(k - 1)
  }

  /** Bit `i` of `w`. */
  predicate Bit(w: nat, i: nat) {
    if i == 0 then w % 2 == 1 else Bit(w / 2, i - 1)
  }

  /** `a & b` */
  function And(a: nat, b: nat): nat {
    if a == 0 then 0
    else 2 * And(a / 2, b / 2) + (if a % 2 == 1 && b % 2 == 1 then 1 else 0)
  }

  /** `a | b` */
  function Or(a: nat, b: nat): nat
    decreases a + b
  {
    if a == 0 then b
    else 2 * Or(a / 2, b / 2) + (if a % 2 == 1 || b % 2 == 1 then 1 else 0)
  }

  /** `a & ~b` */
  function AndNot(a: nat, b: nat): nat {
    if a == 0 then 0
    else 2 * AndNot(a / 2, b / 2) + (if a % 2 == 1 && b % 2 == 0 then 1 else 0)
  }

  /** `x` reduced to an unsigned 32-bit word, also for a negative difference. */
  function Wrap32(x: int): nat { x % 0x1_0000_0000 }

  /** The number of trailing zero bits of a non-zero word. */
  function Ctz(w: nat): (r: nat)
    requires w != 0
    ensures Bit(w, r)
    ensures forall j :: 0 <= j < r ==> !Bit(w, j)
  {
    if w % 2 == 1 then 0 else 1 + Ctz(w / 2)
  }

  lemma {:induction false} ZeroHasNoBits(i: nat)
    ensures !Bit(0, i)
  {
    if i > 0 { ZeroHasNoBits(i - 1); }
  }

  lemma {:induction false} BitOfOr(a: nat, b: nat, i: nat)
    ensures Bit(Or(a, b), i) <==> Bit(a, i) || Bit(b, i)
  {
    if a == 0 {
      ZeroHasNoBits(i);
    } else if i > 0 {
      BitOfOr(a / 2, b / 2, i - 1);
    }
  }

  lemma {:induction false} BitOfAndNot(a: nat, b: nat, i: nat)
    ensures Bit(AndNot(a, b), i) <==> Bit(a, i) && !Bit(b, i)
  {
    if a == 0 {
      ZeroHasNoBits(i);
    } else if i > 0 {
      BitOfAndNot(a / 2, b / 2, i - 1);
    }
  }

  /** `1 << k` has exactly bit `k`. */
  lemma {:induction false} BitOfPow2(k: nat, i: nat)
    ensures Bit(Pow2(k), i) <==> i == k
  {
    if k == 0 {
      if i > 0 { ZeroHasNoBits(i - 1); }
    } else if i > 0 {
      BitOfPow2(k - 1, i - 1);
    }
  }

  lemma {:induction false} BitBelow(w: nat, n: nat, i: nat)
    requires w < Pow2(n) && Bit(w, i)
    ensures i < n
  {
    if n == 0 {
      ZeroHasNoBits(i);
    } else if i > 0 {
      BitBelow(w / 2, n - 1, i - 1);
    }
  }

  lemma {:induction false} OrBelow(a: nat, b: nat, n: nat)
    requires a < Pow2(n) && b < Pow2(n)
    ensures Or(a, b) < Pow2(n)
  {
    if a != 0 { OrBelow(a / 2, b / 2, n - 1); }
  }

  lemma {:induction false} AndNotAtMost(a: nat, b: nat)
    ensures AndNot(a, b) <= a
  {
    if a != 0 { AndNotAtMost(a / 2, b / 2); }
  }

  lemma {:induction false} Pow2Monotone(i: nat, j: nat)
    requires i < j
    ensures 2 * Pow2(i) <= Pow2(j)
  {
    if i + 1 < j { Pow2Monotone(i, j - 1); }
  }

  lemma {:induction false} Pow2Sum(i: nat, j: nat)
    ensures Pow2(i + j) == Pow2(i) * Pow2(j)
  {
    if j > 0 {
      Pow2Sum(i, j - 1);
      assert Pow2(i + j) == 2 * Pow2(i + (j - 1));
    }
  }

  lemma {:induction false} ModUnique(x: int, m: int, q: int, r: int)
    requires 0 <= r < m && x == q * m + r
    ensures x % m == r && x / m == q
  {
    var q', r' := x / m, x % m;
    assert (q - q') * m == r' - r;
    MulBound(q - q', m);
  }

  lemma {:induction false} MulBound(a: int, m: int)
    requires m > 0
    ensures a >= 1 ==> a * m >= m
    ensures a <= -1 ==> a * m <= -m
  {
    if a >= 1 {
      assert (a - 1) * m >= 0;
    } else {
      assert (-1 - a) * m >= -m;
    }
  }

  lemma {:induction false} ModOfMod(x: int, m: int, c: int)
    requires m > 0 && c > 0
    ensures (x % (m * c)) % m == x % m
  {
    var q, r := x / (m * c), x % (m * c);
    var q', r' := r / m, r % m;
    assert x == (q * c + q') * m + r';
    ModUnique(x, m, q * c + q', r');
  }

  /** Masking with `2^k - 1` is the remainder modulo `2^k`. */
  lemma {:induction false} MaskIsMod(x: nat, k: nat)
    ensures And(x, Pow2(k) - 1) == x % Pow2(k)
  {
    if k == 0 {
      AndZero(x);
    } else {
      MaskIsMod(x / 2, k - 1);
      MaskStep(x, Pow2(k - 1));
      ModDouble(x, Pow2(k - 1));
    }
  }

  lemma {:induction false} MaskStep(x: nat, m: nat)
    requires m > 0
    ensures And(x, 2 * m - 1) == 2 * And(x / 2, m - 1) + x % 2
  {
    assert (2 * m - 1) / 2 == m - 1;
  }

  lemma {:induction false} ModDouble(x: nat, m: nat)
    requires m > 0
    ensures x % (2 * m) == 2 * ((x / 2) % m) + x % 2
  {
    var q, r := (x / 2) / m, (x / 2) % m;
    assert x / 2 == q * m + r;
    assert 2 * (q * m) == q * (2 * m);
    ModUnique(x, 2 * m, q, 2 * r + x % 2);
  }

  lemma {:induction false} AndZero(x: nat)
    ensures And(x, 0) == 0
  {
    if x != 0 { AndZero(x / 2); }
  }

  /** A 32-bit result masked with `n - 1`, for a power of two `n <= 2^32`, is the
      remainder modulo `n` of the unbounded result, whatever wrapped around. */
  lemma {:induction false} MaskOfWrap(x: int, k: nat)
    requires k <= 32
    ensures And(Wrap32(x), Pow2(k) - 1) == x % Pow2(k)
  {
    MaskIsMod(Wrap32(x), k);
    Pow2Sum(k, 32 - k);
    Pow2Of32();
    ModOfMod(x, Pow2(k), Pow2(32 - k));
  }

  lemma {:induction false} Pow2Doubled(k: nat)
    ensures Pow2(2 * k) == Pow2(k) * Pow2(k)
  {
    Pow2Sum(k, k);
  }

  lemma {:induction false} Pow2Of32()
    ensures Pow2(32) == TWO_32
  {
    assert Pow2(8) == 256;
    Pow2Doubled(8);
    Pow2Doubled(16);
  }

  lemma {:induction false} Pow2Of64()
    ensures Pow2(64) == TWO_32 * TWO_32
  {
    Pow2Of32();
    Pow2Doubled(32);
  }

  /** `2^n - 1` has exactly the bits below `n`. */
  lemma {:induction false} BitOfOnes(n: nat, i: nat)
    ensures Bit(Pow2(n) - 1, i) <==> i < n
  {
    if n == 0 {
      ZeroHasNoBits(i);
    } else if i > 0 {
      assert (Pow2(n) - 1) / 2 == Pow2(n - 1) - 1;
      BitOfOnes(n - 1, i - 1);
    }
  }

  lemma {:induction false} AndPlusAndNot(a: nat, b: nat)
    ensures And(a, b) + AndNot(a, b) == a
  {
    if a != 0 { AndPlusAndNot(a / 2, b / 2); }
  }

  lemma {:induction false} AndSelf(x: nat)
    ensures And(x, x) == x
  {
    if x != 0 { AndSelf(x / 2); }
  }

  function Log2(c: nat): nat
    requires c > 0
  {
    if c == 1 then 0 else 1 + Log2(c / 2)
  }

  lemma {:induction false} Log2OfPow2(k: nat)
    ensures Log2(Pow2(k)) == k
  {
    if k > 0 {
      assert Pow2(k) / 2 == Pow2(k - 1);
      Log2OfPow2(k - 1);
    }
  }

  ghost predicate IsPowerOfTwo(c: nat) {
    exists k: nat :: c == Pow2(k)
  }

  lemma {:induction false} LowestBitCleared(c: nat)
    requires c > 0
    ensures And(c, c - 1) == 0 <==> c == Pow2(Log2(c))
  {
    if c % 2 == 1 {
      AndSelf(c / 2);
    } else {
      assert (c - 1) / 2 == c / 2 - 1;
      LowestBitCleared(c / 2);
    }
  }

  /** `c & (c - 1)` is zero exactly for the powers of two. */
  lemma {:induction false} PowerOfTwoTest(c: nat)
    requires c > 0
    ensures And(c, c - 1) == 0 <==> IsPowerOfTwo(c)
    ensures IsPowerOfTwo(c) ==> c == Pow2(Log2(c))
  {
    LowestBitCleared(c);
    if k: nat :| c == Pow2(k) {
      Log2OfPow2(k);
    }
  }

  lemma {:induction false} Pow2Reflects(i: nat, j: nat)
    requires Pow2(i) < Pow2(j)
    ensures i < j
  {
    if j < i {
      Pow2Monotone(j, i);
    }
  }
}
