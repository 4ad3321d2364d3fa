/**
 The field code for machines with 128-bit products: five limbs of 51 bits in 64-bit words,
 overwritten step by step. Words are bounded integers, so that every assignment to one is also the
 claim that nothing has overflowed; where the source cuts a value down, the cut is written out.
 `x & 0x7ffffffffffff` and `x >> 51` are the remainder and the quotient by 2^51.
 */
module Field51 {
  import opened Field
  import opened Words

  const U128 := 0x1_0000_0000_0000_0000_0000_0000_0000_0000
  const TWO51 := 0x8_0000_0000_0000
  const TWO102 := 0x40_0000_0000_0000_0000_0000_0000
  const TWO153 := 0x200_0000_0000_0000_0000_0000_0000_0000_0000_0000
  const TWO204 := 0x1000_0000_0000_0000_0000_0000_0000_0000_0000_0000_0000_0000_0000

  type u64 = x: int | 0 <= x < U64_LIMIT
  type u128 = x: int | 0 <= x < U128

  type Limbs = s: seq<int> | |s| == 5 witness [0, 0, 0, 0, 0]

  /** The number that five limbs stand for. */
  function Eval(s: Limbs): int {
    s[0] + TWO51 * s[1] + TWO102 * s[2] + TWO153 * s[3] + TWO204 * s[4]
  }

  predicate Below(s: Limbs, bound: int) {
    forall i :: 0 <= i < 5 ==> 0 <= s[i] < bound
  }

  /** As multiplication and squaring leave them. */
  predicate Reduced(s: Limbs) {
    Below(s, TWO51 + 0x2000) && s[0] < TWO51 && s[2] < TWO51 && s[3] < TWO51 && s[4] < TWO51
  }

  // ---------------------------------------------------------------- the product, as numbers

  /** The limbs of a product before any carrying; limbs past the top come round times 19. */
  function Product(a: Limbs, b: Limbs): Limbs {
    [a[0] * b[0] + 19 * (a[4] * b[1]) + 19 * (a[3] * b[2]) + 19 * (a[2] * b[3]) + 19 * (a[1] * b[4]),
     a[1] * b[0] + a[0] * b[1] + 19 * (a[4] * b[2]) + 19 * (a[3] * b[3]) + 19 * (a[2] * b[4]),
     a[2] * b[0] + a[1] * b[1] + a[0] * b[2] + 19 * (a[4] * b[3]) + 19 * (a[3] * b[4]),
     a[3] * b[0] + a[2] * b[1] + a[1] * b[2] + a[0] * b[3] + 19 * (a[4] * b[4]),
     a[4] * b[0] + a[3] * b[1] + a[2] * b[2] + a[1] * b[3] + a[0] * b[4]]
  }

  lemma Row(a: Limbs, s: int)
    ensures Eval(a) * s ==
            a[0] * s + TWO51 * (a[1] * s) + TWO102 * (a[2] * s) + TWO153 * (a[3] * s) + TWO204 * (a[4] * s)
  {
    RowOf(a[0], a[1], a[2], a[3], a[4], s);
  }

  lemma RowOf(a0: int, a1: int, a2: int, a3: int, a4: int, s: int)
    ensures (a0 + TWO51 * a1 + TWO102 * a2 + TWO153 * a3 + TWO204 * a4) * s ==
            a0 * s + TWO51 * (a1 * s) + TWO102 * (a2 * s) + TWO153 * (a3 * s) + TWO204 * (a4 * s)
  {
  }

  /** Five limbs moved up by n places, each one past the top coming round times 19. */
  function Shifted(p: Limbs, n: nat): Limbs
    requires n < 5
  {
    seq(5, i requires 0 <= i < 5 => if i >= n then p[i - n] else 19 * p[5 + i - n])
  }

  /** ... and what comes round, in multiples of the modulus. */
  function Wraps(p: Limbs, n: nat): int
    requires n < 5
  {
    if n == 0 then 0
    else if n == 1 then p[4]
    else if n == 2 then p[3] + TWO51 * p[4]
    else if n == 3 then p[2] + TWO51 * p[3] + TWO102 * p[4]
    else p[1] + TWO51 * p[2] + TWO102 * p[3] + TWO153 * p[4]
  }

  function Place(n: nat): int
    requires n < 5
  {
    if n == 0 then 1 else if n == 1 then TWO51 else if n == 2 then TWO102 else if n == 3 then TWO153 else TWO204
  }

  lemma ShiftIsSame(p: Limbs, n: nat)
    requires n < 5
    ensures Place(n) * Eval(p) == Eval(Shifted(p, n)) + Wraps(p, n) * P
  {
  }

  function RowLimbs(a: Limbs, s: int): Limbs {
    [a[0] * s, a[1] * s, a[2] * s, a[3] * s, a[4] * s]
  }

  lemma RowValue(a: Limbs, s: int)
    ensures Eval(RowLimbs(a, s)) == Eval(a) * s
  {
    Row(a, s);
  }

  function Wrapped(a: Limbs, b: Limbs): int {
    Wraps(RowLimbs(a, b[1]), 1) + Wraps(RowLimbs(a, b[2]), 2) + Wraps(RowLimbs(a, b[3]), 3)
    + Wraps(RowLimbs(a, b[4]), 4)
  }

  lemma SumOfRows(a: Limbs, b: Limbs)
    ensures Eval(Product(a, b)) ==
            Eval(RowLimbs(a, b[0])) + Eval(Shifted(RowLimbs(a, b[1]), 1)) + Eval(Shifted(RowLimbs(a, b[2]), 2))
            + Eval(Shifted(RowLimbs(a, b[3]), 3)) + Eval(Shifted(RowLimbs(a, b[4]), 4))
  {
  }

  lemma RowsMakeProduct(a: Limbs, b: Limbs)
    ensures Eval(a) * Eval(b) ==
            Eval(RowLimbs(a, b[0])) + TWO51 * Eval(RowLimbs(a, b[1])) + TWO102 * Eval(RowLimbs(a, b[2]))
            + TWO153 * Eval(RowLimbs(a, b[3])) + TWO204 * Eval(RowLimbs(a, b[4]))
  {
    var x := Eval(a);
    RowOf(b[0], b[1], b[2], b[3], b[4], x);
    assert Eval(b) == b[0] + TWO51 * b[1] + TWO102 * b[2] + TWO153 * b[3] + TWO204 * b[4];
    hide Eval, RowLimbs;
    RowValue(a, b[0]);
    RowValue(a, b[1]);
    RowValue(a, b[2]);
    RowValue(a, b[3]);
    RowValue(a, b[4]);
  }

  lemma ProductIdentity(a: Limbs, b: Limbs)
    ensures Eval(a) * Eval(b) == Eval(Product(a, b)) + Wrapped(a, b) * P
  {
    hide Eval, Product, RowLimbs, Shifted, Wraps;
    RowsMakeProduct(a, b);
    SumOfRows(a, b);
    ShiftIsSame(RowLimbs(a, b[1]), 1);
    ShiftIsSame(RowLimbs(a, b[2]), 2);
    ShiftIsSame(RowLimbs(a, b[3]), 3);
    ShiftIsSame(RowLimbs(a, b[4]), 4);
  }

  /** The product limbs stand for the product. */
  lemma ProductIsProduct(a: Limbs, b: Limbs)
    ensures Same(Eval(Product(a, b)), Eval(a) * Eval(b))
  {
    hide Product, Wrapped, Eval;
    ProductIdentity(a, b);
    Multiples(Eval(Product(a, b)), Wrapped(a, b));
  }

  lemma Times(x: int, y: int, a: int, b: int)
    requires 0 <= x < a && 0 <= y < b
    ensures 0 <= x * y <= a * b
  {
    assert x * y <= x * b <= a * b;
  }

  /** No limb of a product of factors below a and b is large; the top limb has no part times 19. */
  lemma ProductBounds(a: Limbs, b: Limbs, l: int, m: int)
    requires Below(a, l) && Below(b, m)
    ensures Below(Product(a, b), 77 * (l * m) + 1) && Product(a, b)[4] <= 5 * (l * m)
  {
    forall i, j | 0 <= i < 5 && 0 <= j < 5
      ensures 0 <= a[i] * b[j] <= l * m
    {
      Times(a[i], b[j], l, m);
    }
  }

  // ---------------------------------------------------------------- carrying, as numbers

  /** The excess of limb k over 51 bits moved to the next limb. */
  function CarryAt(s: Limbs, k: nat): Limbs
    requires k < 4
  {
    s[k := s[k] % TWO51][k + 1 := s[k + 1] + s[k] / TWO51]
  }

  lemma CarryKeepsValue(s: Limbs, k: nat)
    requires k < 4
    ensures Eval(CarryAt(s, k)) == Eval(s)
  {
    assert s[k] == TWO51 * (s[k] / TWO51) + s[k] % TWO51;
  }

  /** The excess of the top limb brought round to the bottom. */
  function CarryTop(s: Limbs): Limbs {
    s[4 := s[4] % TWO51][0 := s[0] + 19 * (s[4] / TWO51)]
  }

  lemma CarryTopKeepsElement(s: Limbs)
    ensures Same(Eval(CarryTop(s)), Eval(s))
  {
    assert s[4] == TWO51 * (s[4] / TWO51) + s[4] % TWO51;
    Multiples(Eval(s), -(s[4] / TWO51));
  }

  // ---------------------------------------------------------------- the steps of the source

  method CarryStep(tmp: array<u128>, k: nat)
    requires tmp.Length == 5 && k < 4
    requires tmp[k + 1] + tmp[k] / TWO51 < U128
    modifies tmp
    ensures tmp[..] == CarryAt(old(tmp[..]), k)
  {
    var c := tmp[k] / TWO51;
    tmp[k] := tmp[k] % U64_LIMIT % TWO51;
    tmp[k + 1] := tmp[k + 1] + c;
  }

  /** `fproduct_carry_wide_`. */
  method CarryWide(tmp: array<u128>)
    requires tmp.Length == 5 && Below(tmp[..], 0x8_0000_0000_0000_0000_0000_0000_0000)
    modifies tmp
    ensures Eval(tmp[..]) == old(Eval(tmp[..]))
    ensures forall i :: 0 <= i < 4 ==> tmp[i] < TWO51
    ensures tmp[4] <= old(tmp[4]) + 0x2_0000_0000_0000_0000
  {
    ghost var s := tmp[..];
    CarryStep(tmp, 0);
    CarryKeepsValue(s, 0);
    ghost var s1 := tmp[..];
    CarryStep(tmp, 1);
    CarryKeepsValue(s1, 1);
    ghost var s2 := tmp[..];
    CarryStep(tmp, 2);
    CarryKeepsValue(s2, 2);
    ghost var s3 := tmp[..];
    CarryStep(tmp, 3);
    CarryKeepsValue(s3, 3);
  }

  /** `fproduct_copy_from_wide_`. */
  method CopyFromWide(output: array<u64>, input: array<u128>)
    requires output.Length == 5 && input.Length == 5 && Below(input[..], U64_LIMIT)
    modifies output
    ensures output[..] == input[..]
  {
    output[0] := input[0] % U64_LIMIT;
    output[1] := input[1] % U64_LIMIT;
    output[2] := input[2] % U64_LIMIT;
    output[3] := input[3] % U64_LIMIT;
    output[4] := input[4] % U64_LIMIT;
  }

  /** The excess of the top limb, cut to a word, is brought round to the bottom. */
  method BringTopRound(t: array<u128>)
    requires t.Length == 5
    requires forall i :: 0 <= i < 4 ==> t[i] < TWO51
    requires 19 * (t[4] / TWO51) < U64_LIMIT - TWO51
    modifies t
    ensures Same(Eval(t[..]), old(Eval(t[..])))
    ensures t[0] == old(t[0]) + 19 * (old(t[4]) / TWO51) && t[4] < TWO51
    ensures t[1] == old(t[1]) && t[2] == old(t[2]) && t[3] == old(t[3])
  {
    ghost var s := t[..];
    var b4, b0 := t[4], t[0];
    var top := b4 % TWO51;
    var bottom := b0 + 19 * (b4 / TWO51 % U64_LIMIT);
    t[4] := top;
    t[0] := bottom;
    assert t[..] == CarryTop(s);
    CarryTopKeepsElement(s);
  }

  /** The end of `fmul_fmul` and of `fsquare_fsquare_`: the top is brought round, the limbs are cut to
      words and the bottom is carried once more. */
  method Finish(t: array<u128>, output: array<u64>)
    requires t.Length == 5 && output.Length == 5
    requires forall i :: 0 <= i < 4 ==> t[i] < TWO51
    requires 19 * (t[4] / TWO51) < U64_LIMIT - TWO51
    modifies t, output
    ensures Same(Eval(output[..]), old(Eval(t[..]))) && Reduced(output[..])
  {
    BringTopRound(t);
    CopyFromWide(output, t);
    ghost var w := output[..];
    var i0, i1 := output[0], output[1];
    output[0] := i0 % TWO51;
    output[1] := i1 + i0 / TWO51;
    assert output[..] == CarryAt(w, 0);
    CarryKeepsValue(w, 0);
  }

  /** `fproduct_sum_scalar_multiplication_`. */
  method SumScalarMultiplication(output: array<u128>, input: array<u64>, s: u64)
    requires output.Length == 5 && input.Length == 5
    requires forall i :: 0 <= i < 5 ==> output[i] + input[i] * s < U128
    modifies output
    ensures forall i :: 0 <= i < 5 ==> output[i] == old(output[i]) + input[i] * s
  {
    for k := 0 to 5
      invariant forall i :: 0 <= i < k ==> output[i] == old(output[i]) + input[i] * s
      invariant forall i :: k <= i < 5 ==> output[i] == old(output[i])
    {
      NonNegative(input[k], s);
      output[k] := output[k] + input[k] * s;
    }
  }

  lemma NonNegative(x: nat, y: nat)
    ensures x * y >= 0
  {
  }

  /** `fmul_shift_reduce`: every limb one place up, the top one to the bottom times 19. */
  method ShiftReduce(output: array<u64>)
    requires output.Length == 5 && 19 * output[4] < U64_LIMIT
    modifies output
    ensures output[..] == [19 * old(output[4])] + old(output[..4])
  {
    var tmp := output[4];
    output[4] := output[3];
    output[3] := output[2];
    output[2] := output[1];
    output[1] := output[0];
    output[0] := tmp;
    var b0 := output[0];
    output[0] := 19 * b0;
  }

  lemma Scaled(x: int, y: int, s: int)
    requires x == 19 * y
    ensures x * s == 19 * (y * s)
  {
  }

  function Plus(s: Limbs, t: Limbs): Limbs {
    [s[0] + t[0], s[1] + t[1], s[2] + t[2], s[3] + t[3], s[4] + t[4]]
  }

  /** What the first n rounds have added up. */
  function Rounds(a: Limbs, b: Limbs, n: nat): Limbs
    requires n <= 5
  {
    if n == 0 then [0, 0, 0, 0, 0]
    else
      var t := Rounds(a, b, n - 1);
      Plus(t, Shifted(RowLimbs(a, b[n - 1]), n - 1))
  }

  ghost predicate ProductsBelow(a: Limbs, b: Limbs, bound: int) {
    forall i, j :: 0 <= i < 5 && 0 <= j < 5 ==> 0 <= a[i] * b[j] < bound
  }

  lemma {:induction false} RoundsBelow(a: Limbs, b: Limbs, n: nat, bound: int)
    requires n <= 5 && ProductsBelow(a, b, bound) && bound >= 0
    ensures forall i :: 0 <= i < 5 ==> 0 <= Rounds(a, b, n)[i] <= 19 * n * bound
  {
    if n > 0 {
      RoundsBelow(a, b, n - 1, bound);
      assert 19 * n * bound == 19 * (n - 1) * bound + 19 * bound;
    }
  }

  lemma OneRound(a: Limbs, b: Limbs, n: nat)
    requires n < 5
    ensures Rounds(a, b, n + 1) == Plus(Rounds(a, b, n), Shifted(RowLimbs(a, b[n]), n))
    ensures Rounds(a, b, 0) == [0, 0, 0, 0, 0]
  {
  }

  lemma RoundsAreProduct(a: Limbs, b: Limbs)
    ensures Rounds(a, b, 5) == Product(a, b)
  {
    hide Rounds;
    OneRound(a, b, 0);
    OneRound(a, b, 1);
    OneRound(a, b, 2);
    OneRound(a, b, 3);
    OneRound(a, b, 4);
  }

  /** One round of the multiplication, on a factor that has been shifted n times. */
  method Round(output: array<u128>, input: array<u64>, s: u64, ghost a: Limbs, ghost b: Limbs, ghost n: nat)
    requires n < 5 && output.Length == 5 && input.Length == 5 && input[..] == Shifted(a, n)
    requires output[..] == Rounds(a, b, n) && s == b[n]
    requires Below(Rounds(a, b, n + 1), U128)
    modifies output
    ensures output[..] == Rounds(a, b, n + 1)
  {
    hide Rounds, Shifted, RowLimbs;
    OneRound(a, b, n);
    ghost var w := input[..];
    ShiftedRow(a, n, s, w);
    assert forall i :: 0 <= i < 5 ==> output[..][i] + w[i] * s == Rounds(a, b, n + 1)[i];
    SumScalarMultiplication(output, input, s);
  }

  lemma ShiftedRow(a: Limbs, n: nat, s: int, w: Limbs)
    requires n < 5 && w == Shifted(a, n)
    ensures forall i :: 0 <= i < 5 ==> w[i] * s == Shifted(RowLimbs(a, s), n)[i]
  {
    forall i | 0 <= i < 5
      ensures w[i] * s == Shifted(RowLimbs(a, s), n)[i]
    {
      if i < n {
        Scaled(w[i], a[5 + i - n], s);
      }
    }
  }

  method Shift(input: array<u64>, ghost a: Limbs, ghost n: nat)
    requires n < 4 && input.Length == 5 && input[..] == Shifted(a, n) && Below(a, 0x80_0000_0000_0000)
    modifies input
    ensures input[..] == Shifted(a, n + 1)
  {
    ghost var s := input[..];
    assert s[4] == a[4 - n];
    ShiftReduce(input);
    assert input[..] == [19 * s[4]] + s[..4];
  }

  /** `fmul_mul_shift_reduce_`. The factor that is shifted is overwritten. */
  method MulShiftReduce(output: array<u128>, input: array<u64>, input21: array<u64>)
    requires output.Length == 5 && input.Length == 5 && input21.Length == 5 && input != input21
    requires output[..] == [0, 0, 0, 0, 0] && Below(input[..], 0x80_0000_0000_0000)
    requires ProductsBelow(input[..], input21[..], 0x8_0000_0000_0000_0000_0000_0000_0000)
    modifies output, input
    ensures output[..] == Product(old(input[..]), old(input21[..]))
  {
    hide Rounds, Product, Shifted;
    ghost var a, b := input[..], input21[..];
    ghost var bound := 0x8_0000_0000_0000_0000_0000_0000_0000;
    NoRounds(a, b);
    RoundsAreProduct(a, b);
    RoundsBelow(a, b, 1, bound);
    Round(output, input, input21[0], a, b, 0);
    Shift(input, a, 0);
    RoundsBelow(a, b, 2, bound);
    Round(output, input, input21[1], a, b, 1);
    Shift(input, a, 1);
    RoundsBelow(a, b, 3, bound);
    Round(output, input, input21[2], a, b, 2);
    Shift(input, a, 2);
    RoundsBelow(a, b, 4, bound);
    Round(output, input, input21[3], a, b, 3);
    Shift(input, a, 3);
    RoundsBelow(a, b, 5, bound);
    Round(output, input, input21[4], a, b, 4);
  }

  lemma NoRounds(a: Limbs, b: Limbs)
    ensures Rounds(a, b, 0) == [0, 0, 0, 0, 0] && Shifted(a, 0) == a
  {
  }

  // ---------------------------------------------------------------- multiplication and squaring

  /** `fmul_fmul`, for factors whose limbs are below l and m, on either side (the ladder has 2^53 and
      2^55). The output may be one of the factors. */
  method Fmul(output: array<u64>, input: array<u64>, input21: array<u64>, ghost l: nat, ghost m: nat)
    requires output.Length == 5 && input.Length == 5 && input21.Length == 5
    requires Below(input[..], l) && Below(input21[..], m)
    requires l <= 0x80_0000_0000_0000 && l * m <= 0x1000_0000_0000_0000_0000_0000_0000
    modifies output
    ensures Same(Eval(output[..]), old(Eval(input[..]) * Eval(input21[..])))
    ensures Reduced(output[..])
  {
    hide Eval, Product, Same, Reduced, ProductsBelow;
    ghost var a, b := input[..], input21[..];
    ProductFits(a, b, l, m);
    ProductIsProduct(a, b);
    var tmp := new u64[5](i requires 0 <= i < 5 reads input => input[i]);
    assert tmp[..] == a;
    var t := new u128[5](_ => 0);
    MulShiftReduce(t, tmp, input21);
    CarryWide(t);
    Finish(t, output);
    SameChain(Eval(output[..]), Eval(Product(a, b)), Eval(a) * Eval(b));
  }

  lemma ProductFits(a: Limbs, b: Limbs, l: nat, m: nat)
    requires Below(a, l) && Below(b, m) && l * m <= 0x1000_0000_0000_0000_0000_0000_0000
    ensures ProductsBelow(a, b, 0x8_0000_0000_0000_0000_0000_0000_0000)
    ensures Below(Product(a, b), 0x8_0000_0000_0000_0000_0000_0000_0000)
    ensures Product(a, b)[4] <= 5 * 0x1000_0000_0000_0000_0000_0000_0000
  {
    ProductBounds(a, b, l, m);
    forall i, j | 0 <= i < 5 && 0 <= j < 5
      ensures 0 <= a[i] * b[j] <= l * m
    {
      Times(a[i], b[j], l, m);
    }
  }

  lemma Factor(d: int, x: int, k: int, y: int)
    requires d == x * k
    ensures d * y == k * (x * y) && y * d == k * (x * y) && x * y == y * x
  {
    assert d * y == (x * k) * y == k * (x * y);
  }

  /** The shortened products of `fsquare_fsquare__` are those of the multiplication. */
  lemma SquareIsProduct(r: Limbs, d0: int, d1: int, d2: int, d3: int, d4: int, d419: int)
    requires d0 == r[0] * 2 && d1 == r[1] * 2 && d2 == r[2] * 38 && d3 == r[3] * 19 && d4 == r[4] * 38
    requires d419 == r[4] * 19
    ensures Product(r, r) ==
            [r[0] * r[0] + d4 * r[1] + d2 * r[3],
             d0 * r[1] + d4 * r[2] + d3 * r[3],
             d0 * r[2] + r[1] * r[1] + d4 * r[3],
             d0 * r[3] + d1 * r[2] + r[4] * d419,
             d0 * r[4] + d1 * r[3] + r[2] * r[2]]
  {
    Factor(d0, r[0], 2, r[1]);
    Factor(d0, r[0], 2, r[2]);
    Factor(d0, r[0], 2, r[3]);
    Factor(d0, r[0], 2, r[4]);
    Factor(d1, r[1], 2, r[2]);
    Factor(d1, r[1], 2, r[3]);
    Factor(d2, r[2], 38, r[3]);
    Factor(d3, r[3], 19, r[3]);
    Factor(d4, r[4], 38, r[1]);
    Factor(d4, r[4], 38, r[2]);
    Factor(d4, r[4], 38, r[3]);
    Factor(d419, r[4], 19, r[4]);
  }

  lemma SquareFits(r: Limbs, d0: int, d1: int, d2: int, d3: int, d4: int, d419: int)
    requires Below(r, 0x40_0000_0000_0000)
    requires d0 == r[0] * 2 && d1 == r[1] * 2 && d2 == r[2] * 38 && d3 == r[3] * 19 && d4 == r[4] * 38
    requires d419 == r[4] * 19
    ensures 0 <= r[0] * r[0] + d4 * r[1] + d2 * r[3] < U128
    ensures 0 <= d0 * r[1] + d4 * r[2] + d3 * r[3] < U128
    ensures 0 <= d0 * r[2] + r[1] * r[1] + d4 * r[3] < U128
    ensures 0 <= d0 * r[3] + d1 * r[2] + r[4] * d419 < U128
    ensures 0 <= d0 * r[4] + d1 * r[3] + r[2] * r[2] < U128
  {
    hide Product, Below;
    var p := Product(r, r);
    ProductFits(r, r, 0x40_0000_0000_0000, 0x40_0000_0000_0000);
    SquareIsProduct(r, d0, d1, d2, d3, d4, d419);
    FitsEach(p);
  }

  lemma FitsEach(p: Limbs)
    requires Below(p, 0x8_0000_0000_0000_0000_0000_0000_0000)
    ensures 0 <= p[0] < U128 && 0 <= p[1] < U128 && 0 <= p[2] < U128 && 0 <= p[3] < U128 && 0 <= p[4] < U128
  {
  }

  /** `fsquare_fsquare__`. */
  method SquareWide(tmp: array<u128>, output: array<u64>)
    requires tmp.Length == 5 && output.Length == 5 && Below(output[..], 0x40_0000_0000_0000)
    modifies tmp
    ensures tmp[..] == Product(output[..], output[..])
  {
    hide Product;
    ghost var r := output[..];
    var r0, r1, r2, r3, r4 := output[0], output[1], output[2], output[3], output[4];
    assert r == [r0, r1, r2, r3, r4];
    var d0: u64 := r0 * 2;
    var d1: u64 := r1 * 2;
    var d2: u64 := r2 * 2 * 19;
    var d3: u64 := r3 * 19;
    var d419: u64 := r4 * 19;
    var d4: u64 := d419 * 2;
    SquareIsProduct(r, d0, d1, d2, d3, d4, d419);
    SquareFits(r, d0, d1, d2, d3, d4, d419);
    tmp[0] := r0 * r0 + d4 * r1 + d2 * r3;
    tmp[1] := d0 * r1 + d4 * r2 + d3 * r3;
    tmp[2] := d0 * r2 + r1 * r1 + d4 * r3;
    tmp[3] := d0 * r3 + d1 * r2 + r4 * d419;
    tmp[4] := d0 * r4 + d1 * r3 + r2 * r2;
  }

  /** `fsquare_fsquare_`. */
  method FsquareOnce(tmp: array<u128>, output: array<u64>)
    requires tmp.Length == 5 && output.Length == 5 && Below(output[..], 0x40_0000_0000_0000)
    modifies tmp, output
    ensures Same(Eval(output[..]), old(Eval(output[..]) * Eval(output[..])))
    ensures Reduced(output[..])
  {
    hide Eval, Product, Same, Reduced;
    ghost var r := output[..];
    ProductIsProduct(r, r);
    ProductFits(r, r, 0x40_0000_0000_0000, 0x40_0000_0000_0000);
    SquareWide(tmp, output);
    CarryWide(tmp);
    Finish(tmp, output);
    SameChain(Eval(output[..]), Eval(Product(r, r)), Eval(r) * Eval(r));
  }

  // ---------------------------------------------------------------- powers

  predicate Small(s: Limbs) {
    Below(s, 0x20_0000_0000_0000)
  }

  lemma ReducedIsSmall(s: Limbs)
    requires Reduced(s)
    ensures Small(s) && Below(s, 0x40_0000_0000_0000) && Below(s, 0x80_0000_0000_0000)
  {
  }

  /** `fsquare_fsquare_times_`: at least one squaring is done. */
  method SquareTimesInPlace(output: array<u64>, count: nat, ghost z: int, ghost e: nat)
    requires output.Length == 5 && Below(output[..], 0x40_0000_0000_0000) && IsPower(Eval(output[..]), z, e)
    modifies output
    ensures Reduced(output[..])
    ensures IsPower(Eval(output[..]), z, e * Pow2(if count == 0 then 1 else count))
  {
    hide Eval, IsPower, Same, Reduced;
    var tmp := new u128[5](_ => 0);
    Squared(output, tmp, z, e);
    var i := 1;
    assert Pow2(1) == 2 * Pow2(0);
    while i < count
      invariant 1 <= i && (i <= count || (i == 1 && count == 0))
      invariant Reduced(output[..]) && IsPower(Eval(output[..]), z, e * Pow2(i))
    {
      ReducedIsSmall(output[..]);
      Squared(output, tmp, z, e * Pow2(i));
      Doubled(e, i);
      i := i + 1;
    }
  }

  lemma Doubled(e: nat, i: nat)
    ensures e * Pow2(i) + e * Pow2(i) == e * Pow2(i + 1)
  {
    var p := Pow2(i);
    assert e * p + e * p == e * (2 * p);
  }

  method Squared(output: array<u64>, tmp: array<u128>, ghost z: int, ghost e: nat)
    requires output.Length == 5 && tmp.Length == 5
    requires Below(output[..], 0x40_0000_0000_0000) && IsPower(Eval(output[..]), z, e)
    modifies output, tmp
    ensures Reduced(output[..]) && IsPower(Eval(output[..]), z, e + e)
  {
    hide Eval, IsPower, Same, Reduced;
    ghost var x := Eval(output[..]);
    FsquareOnce(tmp, output);
    ProductOfPowers(Eval(output[..]), x, x, z, e, e);
  }

  /** `fsquare_fsquare_times`. */
  method SquareTimes(output: array<u64>, input: array<u64>, count: nat, ghost z: int, ghost e: nat)
    requires output.Length == 5 && input.Length == 5
    requires Below(input[..], 0x40_0000_0000_0000) && IsPower(Eval(input[..]), z, e)
    modifies output
    ensures Reduced(output[..])
    ensures IsPower(Eval(output[..]), z, e * Pow2(if count == 0 then 1 else count))
  {
    hide Eval, IsPower, Same, Reduced;
    ghost var s := input[..];
    for i := 0 to 5
      invariant output[..i] == s[..i] && (output != input ==> input[..] == s) && (output == input ==> output[..] == s)
    {
      output[i] := input[i];
    }
    assert output[..] == s;
    SquareTimesInPlace(output, count, z, e);
  }

  method Multiplied(output: array<u64>, input: array<u64>, input21: array<u64>,
                    ghost z: int, ghost d: nat, ghost e: nat)
    requires output.Length == 5 && input.Length == 5 && input21.Length == 5
    requires Small(input[..]) && Below(input21[..], 0x40_0000_0000_0000)
    requires IsPower(Eval(input[..]), z, d) && IsPower(Eval(input21[..]), z, e)
    modifies output
    ensures Reduced(output[..]) && IsPower(Eval(output[..]), z, d + e)
  {
    hide Eval, IsPower, Same, Reduced;
    ghost var x, y := Eval(input[..]), Eval(input21[..]);
    Fmul(output, input, input21, 0x20_0000_0000_0000, 0x40_0000_0000_0000);
    ProductOfPowers(Eval(output[..]), x, y, z, d, e);
  }

  lemma PowersOfTwo()
    ensures Pow2(1) == 2 && Pow2(2) == 4 && Pow2(5) == 0x20 && Pow2(10) == 0x400 && Pow2(20) == 0x10_0000
    ensures Pow2(50) == 0x4_0000_0000_0000 && Pow2(100) == 0x10_0000_0000_0000_0000_0000_0000
  {
    assert Pow2(8) == 0x100;
    assert Pow2(16) == 0x1_0000;
    Pow2Sum(10, 10);
    Pow2Sum(10, 20);
    Pow2Sum(20, 30);
    Pow2Sum(50, 50);
  }

  /** The beginning of `crecip_crecip`: the powers 11 and 2^5 - 1. */
  method RecipBegin(a: array<u64>, t: array<u64>, b: array<u64>, z: array<u64>)
    requires a.Length == 5 && t.Length == 5 && b.Length == 5 && z.Length == 5
    requires a != t && a != b && t != b && z != a && z != t && z != b
    requires Below(z[..], 0x40_0000_0000_0000)
    modifies a, t, b
    ensures Reduced(a[..]) && IsPower(Eval(a[..]), Eval(z[..]), 11)
    ensures Reduced(b[..]) && IsPower(Eval(b[..]), Eval(z[..]), 0x1f)
  {
    hide Eval, IsPower, Same, Reduced, Pow2;
    ghost var v := Eval(z[..]);
    PowersOfTwo();
    FirstPower(v);
    SquareTimes(a, z, 1, v, 1);
    ReducedIsSmall(a[..]);
    SquareTimes(t, a, 2, v, 2);
    ReducedIsSmall(t[..]);
    Multiplied(b, t, z, v, 8, 1);
    ReducedIsSmall(b[..]);
    Multiplied(a, b, a, v, 9, 2);
    ReducedIsSmall(a[..]);
    SquareTimes(t, a, 1, v, 11);
    ReducedIsSmall(t[..]);
    Multiplied(b, t, b, v, 22, 9);
  }

  /** The middle of `crecip_crecip`: from 2^5 - 1 to 2^50 - 1. */
  method RecipMiddle(t: array<u64>, b: array<u64>, c: array<u64>, ghost v: int)
    requires t.Length == 5 && b.Length == 5 && c.Length == 5 && t != b && t != c && b != c
    requires Reduced(b[..]) && IsPower(Eval(b[..]), v, 0x1f)
    modifies t, b, c
    ensures Reduced(b[..]) && IsPower(Eval(b[..]), v, 0x3_ffff_ffff_ffff)
  {
    hide Eval, IsPower, Same, Reduced, Pow2;
    PowersOfTwo();
    ReducedIsSmall(b[..]);
    SquareTimes(t, b, 5, v, 0x1f);
    ReducedIsSmall(t[..]);
    Multiplied(b, t, b, v, 0x3e0, 0x1f);
    ReducedIsSmall(b[..]);
    SquareTimes(t, b, 10, v, 0x3ff);
    ReducedIsSmall(t[..]);
    Multiplied(c, t, b, v, 0xf_fc00, 0x3ff);
    ReducedIsSmall(c[..]);
    SquareTimes(t, c, 20, v, 0xf_ffff);
    ReducedIsSmall(t[..]);
    Multiplied(t, t, c, v, 0xff_fff0_0000, 0xf_ffff);
    ReducedIsSmall(t[..]);
    SquareTimesInPlace(t, 10, v, 0xff_ffff_ffff);
    ReducedIsSmall(t[..]);
    Multiplied(b, t, b, v, 0x3_ffff_ffff_fc00, 0x3ff);
  }

  /** The end of `crecip_crecip`, from the powers 11 and 2^50 - 1. */
  method RecipEnd(out: array<u64>, a: array<u64>, t: array<u64>, b: array<u64>, c: array<u64>, ghost v: int)
    requires out.Length == 5 && a.Length == 5 && t.Length == 5 && b.Length == 5 && c.Length == 5
    requires a != t && a != c && b != t && b != c && t != c
    requires Reduced(a[..]) && IsPower(Eval(a[..]), v, 11)
    requires Reduced(b[..]) && IsPower(Eval(b[..]), v, 0x3_ffff_ffff_ffff)
    modifies out, t, c
    ensures Reduced(out[..]) && IsPower(Eval(out[..]), v, P - 2)
  {
    hide Eval, IsPower, Same, Reduced, Pow2;
    PowersOfTwo();
    ReducedIsSmall(a[..]);
    ReducedIsSmall(b[..]);
    SquareTimes(t, b, 50, v, 0x3_ffff_ffff_ffff);
    ReducedIsSmall(t[..]);
    Multiplied(c, t, b, v, 0xf_ffff_ffff_fffc_0000_0000_0000, 0x3_ffff_ffff_ffff);
    ReducedIsSmall(c[..]);
    SquareTimes(t, c, 100, v, 0xf_ffff_ffff_ffff_ffff_ffff_ffff);
    ReducedIsSmall(t[..]);
    Multiplied(t, t, c, v, 0xff_ffff_ffff_ffff_ffff_ffff_fff0_0000_0000_0000_0000_0000_0000,
               0xf_ffff_ffff_ffff_ffff_ffff_ffff);
    ReducedIsSmall(t[..]);
    SquareTimesInPlace(t, 50, v, 0xff_ffff_ffff_ffff_ffff_ffff_ffff_ffff_ffff_ffff_ffff_ffff_ffff);
    ReducedIsSmall(t[..]);
    Multiplied(t, t, b, v, 0x3ff_ffff_ffff_ffff_ffff_ffff_ffff_ffff_ffff_ffff_ffff_ffff_fffc_0000_0000_0000,
               0x3_ffff_ffff_ffff);
    ReducedIsSmall(t[..]);
    SquareTimesInPlace(t, 5, v, 0x3ff_ffff_ffff_ffff_ffff_ffff_ffff_ffff_ffff_ffff_ffff_ffff_ffff_ffff_ffff_ffff);
    ReducedIsSmall(t[..]);
    Multiplied(out, t, a, v, 0x7fff_ffff_ffff_ffff_ffff_ffff_ffff_ffff_ffff_ffff_ffff_ffff_ffff_ffff_ffff_ffe0, 11);
  }

  /** `crecip_crecip`: the chain computes the power 2^255 - 21, which is P - 2. */
  method Crecip(out: array<u64>, z: array<u64>)
    requires out.Length == 5 && z.Length == 5 && Below(z[..], 0x40_0000_0000_0000)
    modifies out
    ensures Reduced(out[..]) && IsPower(Eval(out[..]), old(Eval(z[..])), P - 2)
  {
    hide Eval, IsPower, Same, Reduced;
    var a := new u64[5](_ => 0);
    var t := new u64[5](_ => 0);
    var b := new u64[5](_ => 0);
    var c := new u64[5](_ => 0);
    ghost var v := Eval(z[..]);
    RecipBegin(a, t, b, z);
    RecipMiddle(t, b, c, v);
    RecipEnd(out, a, t, b, c, v);
  }

  // ---------------------------------------------------------------- sums, differences, scalars

  lemma EvalOfSum(a: Limbs, b: Limbs, c: Limbs)
    requires forall i :: 0 <= i < 5 ==> c[i] == a[i] + b[i]
    ensures Eval(c) == Eval(a) + Eval(b)
  {
  }

  /** `fsum`. */
  method Fsum(a: array<u64>, b: array<u64>)
    requires a.Length == 5 && b.Length == 5 && forall i :: 0 <= i < 5 ==> a[i] + b[i] < U64_LIMIT
    modifies a
    ensures forall i :: 0 <= i < 5 ==> a[i] == old(a[i] + b[i])
    ensures Eval(a[..]) == old(Eval(a[..]) + Eval(b[..]))
  {
    ghost var x, y := a[..], b[..];
    for k := 0 to 5
      invariant forall i :: 0 <= i < k ==> a[i] == x[i] + y[i]
      invariant forall i :: k <= i < 5 ==> a[i] == x[i] && b[i] == y[i]
    {
      a[k] := a[k] + b[k];
    }
    EvalOfSum(x, y, a[..]);
  }

  /** Eight times the modulus, in limbs; adding it keeps a difference from going below zero. */
  const EIGHT_P: Limbs :=
    [0x3f_ffff_ffff_ff68, 0x3f_ffff_ffff_fff8, 0x3f_ffff_ffff_fff8, 0x3f_ffff_ffff_fff8, 0x3f_ffff_ffff_fff8]

  lemma EvalOfDifference(a: Limbs, b: Limbs, c: Limbs)
    requires forall i :: 0 <= i < 5 ==> c[i] == b[i] + EIGHT_P[i] - a[i]
    ensures Same(Eval(c), Eval(b) - Eval(a))
  {
    assert Eval(EIGHT_P) == 8 * P;
    assert Eval(c) == Eval(b) - Eval(a) + 8 * P;
    Multiples(Eval(b) - Eval(a), 8);
  }

  /** `fdifference`: a becomes b - a. The result is small enough for one side of a multiplication. */
  method Fdifference(a: array<u64>, b: array<u64>)
    requires a.Length == 5 && b.Length == 5
    requires (forall i :: 0 <= i < 5 ==> a[i] <= EIGHT_P[i]) && Below(b[..], 0x40_0000_0000_0000)
    modifies a
    ensures Same(Eval(a[..]), old(Eval(b[..]) - Eval(a[..])))
    ensures Below(a[..], 0x80_0000_0000_0000)
  {
    hide Same, Eval;
    ghost var x, y := a[..], b[..];
    var tmp := new u64[5](_ => 0);
    for k := 0 to 5
      invariant forall i :: 0 <= i < k ==> tmp[i] == b[i] + EIGHT_P[i]
      invariant a[..] == x && b[..] == y
    {
      assert b[k] == b[..][k];
      tmp[k] := b[k] + EIGHT_P[k];
    }
    for k := 0 to 5
      invariant forall i :: 0 <= i < 5 ==> tmp[i] == y[i] + EIGHT_P[i]
      invariant forall i :: 0 <= i < k ==> a[i] == tmp[i] - x[i]
      invariant forall i :: k <= i < 5 ==> a[i] == x[i]
    {
      a[k] := tmp[k] - a[k];
    }
    EvalOfDifference(x, y, a[..]);
  }

  /** The products in `fscalar`. */
  method ScalarProducts(tmp: array<u128>, b: array<u64>, s: u64)
    requires tmp.Length == 5 && b.Length == 5 && Below(b[..], 0x80_0000_0000_0000) && s < 0x2_0000
    modifies tmp
    ensures Below(tmp[..], 0x100_0000_0000_0000_0001)
    ensures Eval(tmp[..]) == Eval(b[..]) * s
  {
    hide Eval;
    for k := 0 to 5
      invariant forall i :: 0 <= i < k ==> tmp[i] == b[i] * s && tmp[i] <= 0x100_0000_0000_0000_0000
    {
      assert b[k] == b[..][k];
      Times(b[k], s, 0x80_0000_0000_0000, 0x2_0000);
      tmp[k] := b[k] * s;
    }
    RowOfLimbs(b[..], s, tmp[..]);
  }

  /** `fscalar`. The result is not carried past the bottom limb. */
  method Fscalar(output: array<u64>, b: array<u64>, s: u64)
    requires output.Length == 5 && b.Length == 5 && Below(b[..], 0x80_0000_0000_0000) && s < 0x2_0000
    modifies output
    ensures Same(Eval(output[..]), old(Eval(b[..])) * s)
    ensures Below(output[..], 0x10_0000_0000_0000)
  {
    hide Same, Eval;
    var tmp := new u128[5](_ => 0);
    ScalarProducts(tmp, b, s);
    CarryWide(tmp);
    BringTopRound(tmp);
    CopyFromWide(output, tmp);
  }

  lemma RowOfLimbs(a: Limbs, s: int, t: Limbs)
    requires forall i :: 0 <= i < 5 ==> t[i] == a[i] * s
    ensures Eval(t) == Eval(a) * s
  {
    Row(a, s);
  }
}