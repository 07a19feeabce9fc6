/** 64-bit words as sets of bits: the masks, single-bit updates and zero counts the occupancy
    bitset is written with. A word is a number below 2^64 and the bitwise operators are defined
    digit by digit; every operation is specified by which bits its result has. */
module Words {

  const WORD := 64
  const MAX_WORD := 0xFFFF_FFFF_FFFF_FFFF

  type word = w: nat | w <= MAX_WORD

  predicate Bit(w: nat, k: nat) {
    if k == 0 then w % 2 == 1 else Bit(w / 2, k - 1)
  }

  // `1 << n`
  function Pow2(n: nat): (p: nat)
    ensures p > 0
  {
    if n == 0 then 1 else 2 * Pow2(n - 1)
  }

  // `a & b`
  function And(a: nat, b: nat): nat {
    if a == 0 || b == 0 then 0
    else 2 * And(a / 2, b / 2) + (if a % 2 == 1 && b % 2 == 1 then 1 else 0)
  }

  // `a | b`
  function Or(a: nat, b: nat): nat {
    if a == 0 && b == 0 then 0
    else 2 * Or(a / 2, b / 2) + (if a % 2 == 1 || b % 2 == 1 then 1 else 0)
  }

  // `~a`
  function Not(a: word): word {
    MAX_WORD - a
  }

  // ---------------------------------------------------------------------------------------------
  // Which bits the operators give
  // ---------------------------------------------------------------------------------------------

  lemma {:induction false} ZeroHasNone(k: nat)
    ensures !Bit(0, k)
  {
    if k != 0 {
      ZeroHasNone(k - 1);
    }
  }

  lemma {:induction false} AndBit(a: nat, b: nat, k: nat)
    ensures Bit(And(a, b), k) <==> Bit(a, k) && Bit(b, k)
  {
    if a == 0 || b == 0 {
      ZeroHasNone(k);
    } else if k != 0 {
      AndBit(a / 2, b / 2, k - 1);
    }
  }

  lemma {:induction false} OrBit(a: nat, b: nat, k: nat)
    ensures Bit(Or(a, b), k) <==> Bit(a, k) || Bit(b, k)
  {
    if a == 0 && b == 0 {
      ZeroHasNone(k);
    } else if k != 0 {
      OrBit(a / 2, b / 2, k - 1);
    }
  }

  lemma {:induction false} NotBit(a: nat, n: nat, k: nat)
    requires a < Pow2(n) && k < n
    ensures Bit(Pow2(n) - 1 - a, k) <==> !Bit(a, k)
  {
    if k != 0 {
      NotBit(a / 2, n - 1, k - 1);
    }
  }

  lemma {:induction false} PowBit(i: nat, k: nat)
    ensures Bit(Pow2(i), k) <==> k == i
  {
    if i == 0 {
      if k != 0 {
        ZeroHasNone(k - 1);
      }
    } else if k != 0 {
      PowBit(i - 1, k - 1);
    }
  }

  lemma {:induction false} OnesBit(b: nat, k: nat)
    ensures Bit(Pow2(b) - 1, k) <==> k < b
  {
    if b == 0 {
      ZeroHasNone(k);
    } else if k != 0 {
      OnesBit(b - 1, k - 1);
    }
  }

  // ---------------------------------------------------------------------------------------------
  // Range
  // ---------------------------------------------------------------------------------------------

  lemma MaxWord()
    ensures Pow2(WORD) == MAX_WORD + 1
  {
    EightBytes(WORD);
  }

  lemma EightBytes(n: nat)
    requires n == 64
    ensures Pow2(n) == 0x1_0000_0000_0000_0000
  {
    Byte(n - 8); Byte(n - 16); Byte(n - 24); Byte(n - 32);
    Byte(n - 40); Byte(n - 48); Byte(n - 56); Byte(n - 64);
  }

  lemma Byte(n: nat)
    ensures Pow2(n + 8) == 256 * Pow2(n)
  {
    assert Pow2(n + 2) == 4 * Pow2(n);
    assert Pow2(n + 4) == 16 * Pow2(n);
    assert Pow2(n + 6) == 64 * Pow2(n);
  }

  lemma {:induction false} AndAtMost(a: nat, b: nat)
    ensures And(a, b) <= a
  {
    if a != 0 && b != 0 {
      AndAtMost(a / 2, b / 2);
    }
  }

  lemma {:induction false} OrFits(a: nat, b: nat, n: nat)
    requires a < Pow2(n) && b < Pow2(n)
    ensures Or(a, b) < Pow2(n)
  {
    if n != 0 {
      OrFits(a / 2, b / 2, n - 1);
    }
  }

  lemma {:induction false} PowMonotone(i: nat, n: nat)
    requires i < n
    ensures 2 * Pow2(i) <= Pow2(n)
  {
    if i != 0 {
      PowMonotone(i - 1, n - 1);
    }
  }

  lemma {:induction false} SomeBit(w: nat, n: nat) returns (k: nat)
    requires 0 < w < Pow2(n)
    ensures k < n && Bit(w, k)
  {
    if w % 2 == 1 {
      k := 0;
    } else {
      k := SomeBit(w / 2, n - 1);
      k := k + 1;
    }
  }

  // ---------------------------------------------------------------------------------------------
  // The operations
  // ---------------------------------------------------------------------------------------------

  // `1 << i`
  function One(i: nat): (r: word)
    requires i < WORD
  {
    MaxWord();
    PowMonotone(i, WORD);
    Pow2(i)
  }

  // `w | (1 << i)`
  method SetBit(w: word, i: nat) returns (r: word)
    requires i < WORD
    ensures forall k :: 0 <= k < WORD ==> (Bit(r, k) <==> k == i || Bit(w, k))
  {
    MaxWord();
    OrFits(w, One(i), WORD);
    r := Or(w, One(i));
    forall k | 0 <= k < WORD ensures Bit(r, k) <==> k == i || Bit(w, k) {
      OrBit(w, One(i), k);
      PowBit(i, k);
    }
  }

  // `w & ~(1 << i)`
  method ClearBit(w: word, i: nat) returns (r: word)
    requires i < WORD
    ensures forall k :: 0 <= k < WORD ==> (Bit(r, k) <==> k != i && Bit(w, k))
  {
    AndAtMost(w, Not(One(i)));
    r := And(w, Not(One(i)));
    forall k | 0 <= k < WORD ensures Bit(r, k) <==> k != i && Bit(w, k) {
      AndBit(w, Not(One(i)), k);
      NotWordBit(One(i), k);
      PowBit(i, k);
    }
  }

  lemma NotWordBit(w: word, k: nat)
    requires k < WORD
    ensures Bit(Not(w), k) <==> !Bit(w, k)
  {
    MaxWord();
    NotBit(w, WORD, k);
  }

  // `w & ((1 << b) - 1)`: the bits below `b`
  method KeepBelow(w: word, b: nat) returns (r: word)
    requires b < WORD
    ensures forall k :: 0 <= k < WORD ==> (Bit(r, k) <==> k < b && Bit(w, k))
  {
    AndAtMost(w, One(b) - 1);
    r := And(w, One(b) - 1);
    forall k | 0 <= k < WORD ensures Bit(r, k) <==> k < b && Bit(w, k) {
      AndBit(w, One(b) - 1, k);
      OnesBit(b, k);
    }
  }

  // `w & ~((1 << b) - 1)`: the bits from `b` up
  method KeepFrom(w: word, b: nat) returns (r: word)
    requires b < WORD
    ensures forall k :: 0 <= k < WORD ==> (Bit(r, k) <==> k >= b && Bit(w, k))
  {
    AndAtMost(w, Not(One(b) - 1));
    r := And(w, Not(One(b) - 1));
    forall k | 0 <= k < WORD ensures Bit(r, k) <==> k >= b && Bit(w, k) {
      AndBit(w, Not(One(b) - 1), k);
      NotWordBit(One(b) - 1, k);
      OnesBit(b, k);
    }
  }

  // `std::countr_zero`: the number of the lowest set bit
  method LowestBit(w: word) returns (n: nat)
    requires w != 0
    ensures n < WORD && Bit(w, n)
    ensures forall k :: 0 <= k < n ==> !Bit(w, k)
  {
    MaxWord();
    ghost var top := SomeBit(w, WORD);
    n := 0;
    while !Bit(w, n)
      invariant n <= top && forall k :: 0 <= k < n ==> !Bit(w, k)
      decreases top - n
    {
      n := n + 1;
    }
  }

  // `63 - std::countl_zero`: the number of the highest set bit
  method HighestBit(w: word) returns (n: nat)
    requires w != 0
    ensures n < WORD && Bit(w, n)
    ensures forall k :: n < k < WORD ==> !Bit(w, k)
  {
    MaxWord();
    ghost var low := SomeBit(w, WORD);
    n := WORD - 1;
    while !Bit(w, n)
      invariant low <= n < WORD && forall k :: n < k < WORD ==> !Bit(w, k)
      decreases n
    {
      n := n - 1;
    }
  }
}
