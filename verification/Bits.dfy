/** Powers of two and the bits of a number (src/lobject.h:650-658). */
module Bits {
  function Pow2(n: nat): (p: nat)
    ensures p > 0
  {
    if n == 0 then 1 else 2 * Pow2(n - 1)
  }

  /** The sizes of the string table and of node vectors. */
  ghost predicate IsPow2(size: int) {
    exists g: nat :: size == Pow2(g)
  }

  /** They stay powers of two when they are doubled and halved. */
  lemma Pow2Steps(size: nat)
    requires IsPow2(size)
    ensures IsPow2(size * 2) && (size > 1 ==> size % 2 == 0 && IsPow2(size / 2))
  {
    var g: nat :| size == Pow2(g);
    assert size * 2 == Pow2(g + 1);
    if size > 1 {
      assert size / 2 == Pow2(g - 1);
    }
  }

  /** The exclusive or of the lowest n bits. */
  function Xor(a: nat, b: nat, n: nat): nat {
    if n == 0 then 0 else (a + b) % 2 + 2 * Xor(a / 2, b / 2, n - 1)
  }

  function Bit(a: nat, k: nat): nat {
    if k == 0 then a % 2 else Bit(a / 2, k - 1)
  }

  /** A bit is set exactly if it is in one of the two numbers only. */
  lemma {:induction false} XorBits(a: nat, b: nat, n: nat, k: nat)
    requires k < n
    ensures Bit(Xor(a, b, n), k) == if Bit(a, k) == Bit(b, k) then 0 else 1
  {
    if k > 0 {
      XorBits(a / 2, b / 2, n - 1, k - 1);
      assert Xor(a, b, n) / 2 == Xor(a / 2, b / 2, n - 1);
    } else {
      assert Xor(a, b, n) % 2 == (a + b) % 2;
    }
  }

  lemma XorStep(a: nat, b: nat, n: nat)
    requires n > 0
    ensures Xor(a, b, n) == (a + b) % 2 + 2 * Xor(a / 2, b / 2, n - 1)
  {
  }

  lemma {:induction false} XorNone(b: nat, n: nat)
    requires b < Pow2(n)
    ensures Xor(0, b, n) == b
  {
    if n > 0 {
      XorNone(b / 2, n - 1);
    }
  }

  lemma {:induction false} Pow2Grows(m: nat, n: nat)
    requires m <= n
    ensures Pow2(m) <= Pow2(n)
    decreases n
  {
    if m < n {
      Pow2Grows(m, n - 1);
    }
  }

  /** Bitwise and. */
  function And(a: nat, b: nat): (c: nat)
    ensures c <= b
    decreases b
  {
    if b == 0 then 0 else (a % 2) * (b % 2) + 2 * And(a / 2, b / 2)
  }

  /** lmod: the low bits of a hash value choose the position in a table. */
  function Lmod(hash: nat, size: nat): (b: nat)
    requires size > 0
    ensures b < size
  {
    And(hash, size - 1)
  }

  lemma AndStep(a: nat, p: nat)
    requires p > 0
    ensures And(a, 2 * p - 1) == a % 2 + 2 * And(a / 2, p - 1)
  {
    assert (2 * p - 1) / 2 == p - 1 && (2 * p - 1) % 2 == 1;
  }

  function Rem(a: nat, n: nat): nat
    requires n > 0
  {
    a % n
  }

  lemma {:induction false} AndMask(a: nat, g: nat)
    ensures And(a, Pow2(g) - 1) == Rem(a, Pow2(g))
  {
    hide And, Rem;
    if g > 0 {
      AndMask(a / 2, g - 1);
      AndStep(a, Pow2(g - 1));
      HalfRem(a, Pow2(g - 1));
    } else {
      AndZero(a);
    }
  }

  lemma AndZero(a: nat)
    ensures And(a, 0) == Rem(a, 1) == 0
  {
  }

  lemma HalfRem(a: nat, p: nat)
    requires p > 0
    ensures Rem(a, 2 * p) == a % 2 + 2 * Rem(a / 2, p)
  {
    var q, r := a / 2 / p, a / 2 % p;
    assert a / 2 == q * p + r && a == 2 * (a / 2) + a % 2;
    assert a == q * (2 * p) + (a % 2 + 2 * r) by {
      assert 2 * (q * p) == q * (2 * p);
    }
    Remainder(a, 2 * p, q, a % 2 + 2 * r);
  }

  lemma Remainder(a: nat, n: nat, q: nat, r: nat)
    requires n > 0 && a == q * n + r && r < n
    ensures a % n == r
  {
    var d := a / n;
    if d < q {
      Multiples(n, d, q);
    } else if d > q {
      Multiples(n, q, d);
    }
  }

  lemma {:induction false} Multiples(n: nat, d: nat, q: nat)
    requires d < q
    ensures d * n + n <= q * n
    decreases q
  {
    assert q * n == (q - 1) * n + n;
    if d < q - 1 {
      Multiples(n, d, q - 1);
    }
  }

  /** For a power of two that is the remainder, as luaS_resize asserts. */
  lemma LmodRemainder(hash: nat, size: nat)
    requires IsPow2(size)
    ensures size > 0 && Lmod(hash, size) == hash % size
  {
    var g: nat :| size == Pow2(g);
    AndMask(hash, g);
  }
}
