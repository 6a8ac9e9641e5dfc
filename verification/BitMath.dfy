/** Powers of two and the bit operations the memory manager computes orders with. */
module BitMath {

  function Pow2(k: nat): (p: nat)
    ensures p >= 1
  {
    if k == 0 then 1 else 2 * Pow2(k - 1)
  }

  lemma {:induction false} Pow2Monotone(a: nat, b: nat)
    requires a <= b
    ensures Pow2(a) <= Pow2(b)
    ensures a < b ==> 2 * Pow2(a) <= Pow2(b)
  {
    if a < b {
      Pow2Monotone(a, b - 1);
    }
  }

  lemma {:induction false} Pow2Add(a: nat, b: nat)
    ensures Pow2(a + b) == Pow2(a) * Pow2(b)
  {
    if b > 0 {
      Pow2Add(a, b - 1);
      Double(Pow2(a), Pow2(b - 1));
    }
  }

  lemma Double(p: nat, q: nat)
    ensures 2 * (p * q) == p * (2 * q)
  {
  }

  lemma Pow2Injective(a: nat, b: nat)
    requires Pow2(a) == Pow2(b)
    ensures a == b
  {
    if a < b {
      Pow2Monotone(a, b);
    } else if b < a {
      Pow2Monotone(b, a);
    }
  }

  /** The bitwise `&` of two unsigned words. */
  function BitAnd(a: nat, b: nat): nat {
    if a == 0 || b == 0 then 0 else 2 * BitAnd(a / 2, b / 2) + (if a % 2 == 1 && b % 2 == 1 then 1 else 0)
  }

  /** The bitwise `^` of two unsigned words. */
  function BitXor(a: nat, b: nat): nat
    decreases a + b
  {
    if a == 0 then b
    else if b == 0 then a
    else 2 * BitXor(a / 2, b / 2) + (if a % 2 == b % 2 then 0 else 1)
  }

  lemma {:induction false} BitAndSelf(n: nat)
    ensures BitAnd(n, n) == n
  {
    if n > 0 {
      BitAndSelf(n / 2);
    }
  }

  /** `search_64rlbits(n) - 1`: the index of the highest set bit. */
  function HighBit(n: nat): (k: nat)
    requires n >= 1
    ensures Pow2(k) <= n < Pow2(k + 1)
  {
    if n == 1 then 0 else 1 + HighBit(n / 2)
  }

  /** `n & (n - 1)` clears the lowest set bit, so it is zero exactly on powers of two. */
  lemma {:induction false} BitTrick(n: nat)
    requires n >= 1
    ensures BitAnd(n, n - 1) == 0 <==> n == Pow2(HighBit(n))
  {
    if n > 1 {
      if n % 2 == 1 {
        assert (n - 1) / 2 == n / 2;
        BitAndSelf(n / 2);
        assert BitAnd(n, n - 1) == 2 * (n / 2);
        assert HighBit(n) >= 1;
        assert n != 2 * Pow2(HighBit(n) - 1);
      } else {
        assert (n - 1) / 2 == n / 2 - 1;
        assert (n - 1) % 2 == 1;
        BitTrick(n / 2);
      }
    }
  }

  /** `retn_divoder`: the order of the smallest power of two that holds `n` pages. */
  function DivOrder(n: nat): (r: nat)
    requires n >= 1
    ensures n <= Pow2(r)
    ensures r > 0 ==> Pow2(r - 1) < n
  {
    BitTrick(n);
    if BitAnd(n, n - 1) != 0 then HighBit(n) + 1 else HighBit(n)
  }

  /** The order is determined by its two bounds. */
  lemma {:induction false} OrderUnique(n: nat, a: nat, b: nat)
    requires a > 0 ==> Pow2(a - 1) < n
    requires b > 0 ==> Pow2(b - 1) < n
    requires n <= Pow2(a) && n <= Pow2(b)
    ensures a == b
  {
    if a < b {
      Pow2Monotone(a, b - 1);
    } else if b < a {
      Pow2Monotone(b, a - 1);
    }
  }

  lemma {:induction false} DivOrderOfPow2(n: nat, k: nat)
    requires n == Pow2(k)
    ensures DivOrder(n) == k
  {
    OrderUnique(n, DivOrder(n), k);
  }
}
