/** Unsigned 32-bit arithmetic as the ring buffer uses it: wrapping addition and
    subtraction, complement, negation of a truth value, and bitwise "and",
    defined bit by bit on naturals. */
module Words {

  const WORD_LIMIT: nat := 0x1_0000_0000

  type Word = x: nat | x < 0x1_0000_0000

  function Add(a: Word, b: Word): Word {
    if a + b < WORD_LIMIT then a + b else a + b - WORD_LIMIT
  }

  function Sub(a: Word, b: Word): Word {
    if b <= a then a - b else WORD_LIMIT + a - b
  }

  function Not(a: Word): Word { WORD_LIMIT - 1 - a }

  /** Bitwise conjunction of two naturals. */
  function And(a: nat, b: nat): nat {
    if a == 0 || b == 0 then 0
    else 2 * And(a / 2, b / 2) + (if a % 2 == 1 && b % 2 == 1 then 1 else 0)
  }

  /** The source's `-(condition) & x`: negating a truth value gives the all-ones
      or the all-zeros mask. */
  function Masked(condition: bool, x: Word): (r: Word)
    ensures r == if condition then x else 0
  {
    var mask: Word := if condition then Sub(0, 1) else Sub(0, 0);
    AllOnesMask(x);
    And(mask, x)
  }

  function Ones(bits: nat): nat {
    if bits == 0 then 0 else 2 * Ones(bits - 1) + 1
  }

  lemma {:induction false} AndOnes(bits: nat, x: nat)
    requires x <= Ones(bits)
    ensures And(Ones(bits), x) == x == And(x, Ones(bits))
  {
    if bits != 0 {
      AndOnes(bits - 1, x / 2);
    }
  }

  lemma OnesValues()
    ensures Ones(30) == 0x3FFF_FFFF && Ones(32) == 0xFFFF_FFFF
  {
    assert Ones(6) == 0x3F;
    assert Ones(12) == 0xFFF;
    assert Ones(18) == 0x3_FFFF;
    assert Ones(24) == 0xFF_FFFF;
    assert Ones(30) == 0x3FFF_FFFF;
  }

  lemma AllOnesMask(x: Word)
    ensures And(WORD_LIMIT - 1, x) == x
  {
    OnesValues();
    AndOnes(32, x);
  }

  lemma AndEven(x: nat, y: nat)
    ensures And(x, 2 * y) == 2 * And(x / 2, y)
  {
    assert 2 * y / 2 == y;
  }

  /** Masking with the complement of 3 clears the two low bits. */
  lemma ClearLowBits(x: Word)
    ensures And(x, Not(3)) == x - x % 4
  {
    hide And, Ones;
    OnesValues();
    assert Not(3) == 2 * (2 * Ones(30));
    AndEven(x, 2 * Ones(30));
    AndEven(x / 2, Ones(30));
    AndOnes(30, x / 2 / 2);
    assert x / 2 / 2 == x / 4;
  }
}
