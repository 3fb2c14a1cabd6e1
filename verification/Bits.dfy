/** Bitwise operators on unsigned words, written over the natural numbers bit by
    bit, and the arithmetic each use of them in the program amounts to. */
module Bits {

  function Pow2(n: nat): (p: nat)
    ensures p >= 1
  {
    if n == 0 then 1 else 2 * Pow2(n - 1)
  }

  const MAX_WORD := 0x1_0000_0000_0000_0000

  type Word = w: int | 0 <= w < MAX_WORD

  function And(a: nat, b: nat): nat {
    if a == 0 || b == 0 then 0
    else 2 * And(a / 2, b / 2) + if a % 2 == 1 && b % 2 == 1 then 1 else 0
  }

  function Or(a: nat, b: nat): nat {
    if a == 0 then b else if b == 0 then a
    else 2 * Or(a / 2, b / 2) + if a % 2 == 1 || b % 2 == 1 then 1 else 0
  }

  function Xor(a: nat, b: nat): nat {
    if a == 0 then b else if b == 0 then a
    else 2 * Xor(a / 2, b / 2) + if a % 2 != b % 2 then 1 else 0
  }

  /** A 64-bit left shift drops the bits that leave the word. */
  function Shl(a: nat, n: nat): nat {
    (a * Pow2(n)) % MAX_WORD
  }

  function Shr(a: nat, n: nat): nat {
    if n == 0 then a else Shr(a / 2, n - 1)
  }

  /** Bit `i` of a word. */
  predicate Bit(a: nat, i: nat) {
    if i == 0 then a % 2 == 1 else Bit(a / 2, i - 1)
  }

  lemma Pow2Nibble(n: nat)
    ensures Pow2(n + 4) == 16 * Pow2(n)
  {
    assert Pow2(n + 2) == 2 * Pow2(n + 1);
    assert Pow2(n + 4) == 2 * Pow2(n + 3);
  }

  lemma Pow2Values()
    ensures Pow2(1) == 2 && Pow2(28) == 0x1000_0000 && Pow2(64) == MAX_WORD
  {
    Pow2Nibble(0); Pow2Nibble(4); Pow2Nibble(8); Pow2Nibble(12);
    Pow2Nibble(16); Pow2Nibble(20); Pow2Nibble(24); Pow2Nibble(28);
    Pow2Nibble(32); Pow2Nibble(36); Pow2Nibble(40); Pow2Nibble(44);
    Pow2Nibble(48); Pow2Nibble(52); Pow2Nibble(56); Pow2Nibble(60);
    assert Pow2(1) == 2 * Pow2(0);
  }

  /** The three operators act on each bit independently. */
  lemma {:induction false} AndIsBitwise(a: nat, b: nat, i: nat)
    ensures Bit(And(a, b), i) == (Bit(a, i) && Bit(b, i))
  {
    if a == 0 || b == 0 {
      ZeroBits(i);
    } else if i > 0 {
      assert And(a, b) / 2 == And(a / 2, b / 2);
      AndIsBitwise(a / 2, b / 2, i - 1);
    }
  }

  lemma {:induction false} OrIsBitwise(a: nat, b: nat, i: nat)
    ensures Bit(Or(a, b), i) == (Bit(a, i) || Bit(b, i))
  {
    if a == 0 || b == 0 {
      ZeroBits(i);
    } else {
      OrHalves(a, b);
      if i > 0 {
        OrIsBitwise(a / 2, b / 2, i - 1);
      }
    }
  }

  lemma OrHalves(a: nat, b: nat)
    requires a != 0 && b != 0
    ensures Or(a, b) / 2 == Or(a / 2, b / 2)
    ensures Or(a, b) % 2 == if a % 2 == 1 || b % 2 == 1 then 1 else 0
  {
  }

  lemma {:induction false} XorIsBitwise(a: nat, b: nat, i: nat)
    ensures Bit(Xor(a, b), i) == (Bit(a, i) != Bit(b, i))
  {
    if a == 0 || b == 0 {
      ZeroBits(i);
    } else if i > 0 {
      assert Xor(a, b) / 2 == Xor(a / 2, b / 2);
      XorIsBitwise(a / 2, b / 2, i - 1);
    }
  }

  lemma {:induction false} ZeroBits(i: nat)
    ensures !Bit(0, i)
  {
    if i == 0 {
    } else {
      ZeroBits(i - 1);
    }
  }

  /** Masking with n ones keeps the value modulo 2^n. */
  lemma {:induction false} AndMask(a: nat, n: nat)
    ensures And(a, Pow2(n) - 1) == a % Pow2(n)
  {
    if n == 0 {
    } else {
      AndMask(a / 2, n - 1);
      HalfMod(a, Pow2(n - 1));
      assert (Pow2(n) - 1) / 2 == Pow2(n - 1) - 1 && (Pow2(n) - 1) % 2 == 1;
    }
  }

  /** A right shift divides by the power of two. */
  lemma {:induction false} ShrIsDivision(a: nat, n: nat)
    ensures Shr(a, n) == a / Pow2(n)
  {
    if n == 0 {
    } else {
      ShrIsDivision(a / 2, n - 1);
      HalfMod(a, Pow2(n - 1));
    }
  }

  lemma HalfMod(a: nat, m: nat)
    requires m >= 1
    ensures a % (2 * m) == 2 * ((a / 2) % m) + a % 2
    ensures a / (2 * m) == (a / 2) / m
  {
    var q, r := (a / 2) / m, (a / 2) % m;
    assert a == q * (2 * m) + (2 * r + a % 2);
    ModUnique(a, 2 * m, q, 2 * r + a % 2);
  }

  /** Quotient and remainder are the only way to write a number. */
  lemma ModUnique(a: nat, m: nat, q: nat, r: nat)
    requires r < m && a == q * m + r
    ensures a / m == q && a % m == r
  {
    var k := a / m - q;
    assert k * m == r - a % m;
    MulGrows(k, m);
  }

  lemma MulGrows(k: int, m: nat)
    ensures k >= 1 ==> k * m >= m
    ensures k <= -1 ==> k * m <= 0 - m
  {
    assert k * m == (k - 1) * m + m == (k + 1) * m - m;
  }

  /** Filling n cleared low bits by OR is addition. */
  lemma {:induction false} OrDisjoint(a: nat, b: nat, n: nat)
    requires b < Pow2(n)
    ensures Or(a * Pow2(n), b) == a * Pow2(n) + b
  {
    if n == 0 {
    } else {
      var x := a * Pow2(n - 1);
      assert a * Pow2(n) == 2 * x;
      OrDisjoint(a, b / 2, n - 1);
      OrDouble(x, b);
    }
  }

  lemma AndDouble(x: nat, b: nat)
    ensures And(x, 2 * b) == 2 * And(x / 2, b)
  {
    assert (2 * b) / 2 == b && (2 * b) % 2 == 0;
  }

  lemma AndOctuple(x: nat, b: nat)
    ensures And(x, 8 * b) == 8 * And(x / 8, b)
  {
    AndDouble(x, 4 * b);
    AndDouble(x / 2, 2 * b);
    AndDouble(x / 4, b);
    assert x / 2 / 2 == x / 4 && x / 4 / 2 == x / 8;
  }

  lemma OrDouble(x: nat, b: nat)
    ensures Or(2 * x, b) == 2 * Or(x, b / 2) + b % 2
  {
    assert (2 * x) / 2 == x && (2 * x) % 2 == 0;
  }

  /** Exclusive or with n ones is the complement of an n-bit word. */
  lemma {:induction false} XorOnes(a: nat, n: nat)
    requires a < Pow2(n)
    ensures Xor(a, Pow2(n) - 1) == Pow2(n) - 1 - a
  {
    if n == 0 {
    } else {
      XorOnes(a / 2, n - 1);
      assert (Pow2(n) - 1) / 2 == Pow2(n - 1) - 1 && (Pow2(n) - 1) % 2 == 1;
    }
  }
}
