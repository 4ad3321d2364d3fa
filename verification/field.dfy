/**
 Arithmetic modulo 2^255 - 19. Two numbers stand for the same field element when they leave the
 same remainder; the limb representations are proved against this.
 */
module Field {
  const P: nat := 0x7fffffff_ffffffff_ffffffff_ffffffff_ffffffff_ffffffff_ffffffff_ffffffed

  predicate Same(a: int, b: int) {
    a % P == b % P
  }

  function Pow(z: int, e: nat): int {
    if e == 0 then 1 else z * Pow(z, e - 1)
  }

  lemma Multiples(a: int, k: int)
    ensures Same(a + k * P, a)
  {
  }

  lemma SameChain(a: int, b: int, c: int)
    requires Same(a, b) && Same(b, c)
    ensures Same(a, c)
  {
  }

  lemma SameMeans(a: int, b: int) returns (k: int)
    requires Same(a, b)
    ensures a == b + k * P
  {
    k := a / P - b / P;
    assert a == a / P * P + a % P;
    assert b == b / P * P + b % P;
  }

  lemma SameProducts(a: int, b: int, c: int, d: int)
    requires Same(a, b) && Same(c, d)
    ensures Same(a * c, b * d)
  {
    hide Same;
    var k := SameMeans(a, b);
    var m := SameMeans(c, d);
    var q := ProductOfSums(a, b, c, d, k, m, P);
    Multiples(b * d, q);
  }

  lemma ProductOfSums(a: int, b: int, c: int, d: int, k: int, m: int, p: int) returns (q: int)
    requires a == b + k * p && c == d + m * p
    ensures a * c == b * d + q * p
  {
    q := b * m + k * d + k * m * p;
  }

  lemma {:induction false} PowOfSum(z: int, d: nat, e: nat)
    ensures Pow(z, d + e) == Pow(z, d) * Pow(z, e)
  {
    if d > 0 {
      PowOfSum(z, d - 1, e);
      Regroup(z, Pow(z, d - 1), Pow(z, e));
    }
  }

  lemma Regroup(x: int, y: int, z: int)
    ensures x * (y * z) == (x * y) * z
  {
  }

  /** v stands for the e-th power of z. */
  ghost predicate IsPower(v: int, z: int, e: nat) {
    Same(v, Pow(z, e))
  }

  lemma FirstPower(z: int)
    ensures IsPower(z, z, 1)
  {
    assert Pow(z, 1) == z * Pow(z, 0);
  }

  lemma ProductOfPowers(v: int, x: int, y: int, z: int, d: nat, e: nat)
    requires IsPower(x, z, d) && IsPower(y, z, e) && Same(v, x * y)
    ensures IsPower(v, z, d + e)
  {
    SameProducts(x, Pow(z, d), y, Pow(z, e));
    PowOfSum(z, d, e);
  }

  lemma {:induction false} PowersOfSame(z: int, y: int, e: nat)
    requires Same(z, y)
    ensures Same(Pow(z, e), Pow(y, e))
  {
    if e > 0 {
      PowersOfSame(z, y, e - 1);
      SameProducts(z, y, Pow(z, e - 1), Pow(y, e - 1));
    }
  }

  /** Equal powers of the same element are the same element, whatever limbs they were computed in;
      so the two inversions, which both ensure the power P - 2, agree. */
  lemma PowersAgree(v: int, z: int, w: int, y: int, e: nat)
    requires Same(z, y) && IsPower(v, z, e) && IsPower(w, y, e)
    ensures Same(v, w)
  {
    PowersOfSame(z, y, e);
  }

  /** So do the two multiplications, which both ensure the product. */
  lemma ProductsAgree(v: int, x: int, y: int, w: int, t: int, u: int)
    requires Same(x, t) && Same(y, u) && Same(v, x * y) && Same(w, t * u)
    ensures Same(v, w)
  {
    SameProducts(x, t, y, u);
  }
}
