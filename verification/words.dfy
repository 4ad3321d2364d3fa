/**
 Machine words as bounded naturals, with the bit operations the sources apply to them.
 `1 << b` ored into a word is `WithBit`, `& !(1 << b)` is `WithoutBit`, and
 `(w >> b) & 1 == 1` is `Bit`; all three are defined one binary digit at a time.
 */
module Words {

  const U32_LIMIT := 0x1_0000_0000
  const U64_LIMIT := 0x1_0000_0000_0000_0000

  function Pow2(n: nat): (r: nat)
    ensures r >= 1
  {
    if n == 0 then 1 else 2 * Pow2(n - 1)
  }

  predicate Bit(w: nat, b: nat) {
    if b == 0 then w % 2 == 1 else Bit(w / 2, b - 1)
  }

  function WithBit(w: nat, b: nat): nat {
    if b == 0 then w / 2 * 2 + 1 else w % 2 + 2 * WithBit(w / 2, b - 1)
  }

  function WithoutBit(w: nat, b: nat): nat {
    if b == 0 then w / 2 * 2 else w % 2 + 2 * WithoutBit(w / 2, b - 1)
  }

  lemma {:induction false} WithBitAt(w: nat, b: nat, c: nat)
    ensures Bit(WithBit(w, b), c) <==> b == c || Bit(w, c)
  {
    if b > 0 && c > 0 {
      WithBitAt(w / 2, b - 1, c - 1);
    }
  }

  lemma {:induction false} WithoutBitAt(w: nat, b: nat, c: nat)
    ensures Bit(WithoutBit(w, b), c) <==> b != c && Bit(w, c)
  {
    if b > 0 && c > 0 {
      WithoutBitAt(w / 2, b - 1, c - 1);
    }
  }

  lemma {:induction false} ZeroHasNoBits(c: nat)
    ensures !Bit(0, c)
  {
    if c > 0 {
      ZeroHasNoBits(c - 1);
    }
  }

  /** Setting or clearing a bit below position n keeps an n-bit word an n-bit word. */
  lemma {:induction false} BitUpdatesFit(w: nat, b: nat, n: nat)
    requires b < n && w < Pow2(n)
    ensures WithBit(w, b) < Pow2(n)
    ensures WithoutBit(w, b) < Pow2(n)
  {
    Halves(w, Pow2(n - 1));
    if b > 0 {
      BitUpdatesFit(w / 2, b - 1, n - 1);
    }
  }

  lemma Halves(w: nat, p: nat)
    requires w < 2 * p
    ensures w / 2 < p && w / 2 * 2 + 1 < 2 * p && w / 2 * 2 <= w
  {
  }

  /** Exclusive or, one binary digit at a time. */
  function Xor(a: nat, b: nat): nat {
    if a == 0 && b == 0 then 0 else (if a % 2 == b % 2 then 0 else 1) + 2 * Xor(a / 2, b / 2)
  }

  lemma {:induction false} XorCancels(a: nat, b: nat)
    ensures Xor(Xor(a, b), b) == a
  {
    if a > 0 || b > 0 {
      XorCancels(a / 2, b / 2);
      var x := Xor(a, b);
      assert x == (if a % 2 == b % 2 then 0 else 1) + 2 * Xor(a / 2, b / 2);
      assert x / 2 == Xor(a / 2, b / 2) && (x % 2 == b % 2 <==> a % 2 == 0);
    }
  }

  lemma {:induction false} XorCommutes(a: nat, b: nat)
    ensures Xor(a, b) == Xor(b, a)
  {
    if a > 0 || b > 0 {
      XorCommutes(a / 2, b / 2);
    }
  }

  lemma {:induction false} XorZero(x: nat)
    ensures Xor(x, 0) == x
  {
    if x > 0 {
      XorZero(x / 2);
    }
  }

  lemma {:induction false} XorFits(a: nat, b: nat, n: nat)
    requires a < Pow2(n) && b < Pow2(n)
    ensures Xor(a, b) < Pow2(n)
  {
    if n > 0 {
      XorFits(a / 2, b / 2, n - 1);
    }
  }

  /** Bitwise and, one binary digit at a time. */
  function And(a: nat, b: nat): nat {
    if a == 0 then 0 else (if a % 2 == 1 && b % 2 == 1 then 1 else 0) + 2 * And(a / 2, b / 2)
  }

  lemma {:induction false} AndOnes(b: nat, n: nat)
    requires b < Pow2(n)
    ensures And(Pow2(n) - 1, b) == b
  {
    if n > 0 {
      AndOnes(b / 2, n - 1);
    }
  }

  lemma {:induction false} AndFits(a: nat, b: nat, n: nat)
    requires a < Pow2(n)
    ensures And(a, b) < Pow2(n)
  {
    if a > 0 {
      AndFits(a / 2, b / 2, n - 1);
    }
  }

  lemma {:induction false} AndCommutes(a: nat, b: nat)
    ensures And(a, b) == And(b, a)
  {
    if a > 0 && b > 0 {
      AndCommutes(a / 2, b / 2);
    } else if a > 0 {
      AndCommutes(a / 2, 0);
    } else if b > 0 {
      AndCommutes(0, b / 2);
    }
  }

  /** Inclusive or, one binary digit at a time. */
  function Or(a: nat, b: nat): nat {
    if a == 0 then b else (if a % 2 == 1 || b % 2 == 1 then 1 else 0) + 2 * Or(a / 2, b / 2)
  }

  /** The or of two words has n bits exactly when both have. */
  lemma {:induction false} OrFits(a: nat, b: nat, n: nat)
    ensures Or(a, b) < Pow2(n) <==> a < Pow2(n) && b < Pow2(n)
  {
    if a > 0 {
      if n > 0 {
        OrFits(a / 2, b / 2, n - 1);
      } else {
        OrIsPositive(a, b);
      }
    }
  }

  lemma {:induction false} OrIsPositive(a: nat, b: nat)
    requires a > 0
    ensures Or(a, b) > 0
  {
    if a > 1 {
      OrIsPositive(a / 2, b / 2);
    }
  }

  /** Where the digits do not meet, or is addition. */
  lemma {:induction false} OrIsSum(high: nat, low: nat, n: nat)
    requires low < Pow2(n)
    ensures Or(high * Pow2(n), low) == high * Pow2(n) + low
  {
    if n == 0 {
      OrZero(high);
    } else if high > 0 {
      var m := high * Pow2(n - 1);
      assert high * Pow2(n) == 2 * m && m > 0;
      OrIsSum(high, low / 2, n - 1);
    }
  }

  lemma {:induction false} OrZero(a: nat)
    ensures Or(a, 0) == a
  {
    if a > 0 {
      OrZero(a / 2);
    }
  }

  lemma {:induction false} XorIsZero(a: nat, b: nat)
    ensures Xor(a, b) == 0 <==> a == b
  {
    if a > 0 || b > 0 {
      XorIsZero(a / 2, b / 2);
    }
  }

  /** The top digit of an exclusive or. */
  lemma {:induction false} XorTop(a: nat, b: nat, n: nat)
    requires a < Pow2(n + 1) && b < Pow2(n + 1)
    ensures Xor(a, b) < Pow2(n + 1)
    ensures Xor(a, b) >= Pow2(n) <==> (a >= Pow2(n)) != (b >= Pow2(n))
  {
    if n > 0 {
      XorTop(a / 2, b / 2, n - 1);
    } else {
      assert Pow2(1) == 2 && Pow2(0) == 1;
      assert Xor(0, 0) == 0;
    }
  }

  lemma {:induction false} PowersGrow(a: nat, b: nat)
    requires a <= b
    ensures Pow2(a) <= Pow2(b)
  {
    if a < b {
      PowersGrow(a, b - 1);
    }
  }

  lemma {:induction false} Pow2Sum(a: nat, b: nat)
    ensures Pow2(a + b) == Pow2(a) * Pow2(b)
  {
    if a > 0 {
      Pow2Sum(a - 1, b);
    }
  }

  lemma Pow2Of32()
    ensures Pow2(32) == U32_LIMIT
  {
    assert Pow2(8) == 0x100;
    assert Pow2(16) == 0x1_0000;
    assert Pow2(24) == 0x100_0000;
  }

  lemma Pow2Of64()
    ensures Pow2(64) == U64_LIMIT
  {
    Pow2Of32();
    assert Pow2(40) == 0x100_0000_0000;
    assert Pow2(48) == 0x1_0000_0000_0000;
    assert Pow2(56) == 0x100_0000_0000_0000;
  }
}
