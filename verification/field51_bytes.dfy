/**
 Elements of the five-limb form as bytes: the expansion of 32 bytes into limbs, and the contraction,
 which writes the one number from 0 to P - 1 that the limbs stand for, selecting by masks.
 */
module Field51Bytes {
  import opened Field
  import opened Words
  import opened ByteStrings
  import opened Field51
  import Field16

  const HALF := 0x8000_0000_0000_0000
  const TWO255 := 0x8000_0000_0000_0000_0000_0000_0000_0000_0000_0000_0000_0000_0000_0000_0000_0000

  // ---------------------------------------------------------------- bytes as numbers

  lemma {:induction false} JoinedBytes(a: Bytes, b: Bytes)
    ensures FromLittleEndian(a + b) == FromLittleEndian(a) + Pow256(|a|) * FromLittleEndian(b)
  {
    if a == [] {
      assert a + b == b;
    } else {
      JoinedBytes(a[1..], b);
      assert (a + b)[1..] == a[1..] + b;
      Nested(a[0], Pow256(|a| - 1), FromLittleEndian(a[1..]), FromLittleEndian(b));
    }
  }

  lemma Nested(d: int, p: int, x: int, y: int)
    ensures d + 256 * (x + p * y) == d + 256 * x + 256 * p * y
  {
  }

  /** Equal numbers in equally many bytes are the same bytes. */
  lemma SameBytes(a: Bytes, b: Bytes)
    requires |a| == |b| && FromLittleEndian(a) == FromLittleEndian(b)
    ensures a == b
  {
    EncodeLittleEndian(a);
    EncodeLittleEndian(b);
  }

  /** `put_unaligned_le64`. */
  method PutLe64(o: array<byte>, at: nat, v: u64)
    requires at + 8 <= o.Length
    modifies o
    ensures o[..] == old(o[..at]) + LittleEndian(8, v) + old(o[at + 8..])
  {
    var bytes := LittleEndian(8, v);
    forall i | 0 <= i < 8 {
      o[at + i] := bytes[i];
    }
    assert o[..] == o[..at] + o[at..at + 8] + o[at + 8..];
  }

  // ---------------------------------------------------------------- the expansion

  /** `get_unaligned_le64`. */
  function GetLe64(s: Bytes, at: nat): (v: u64)
    requires at + 8 <= |s|
    ensures v == FromLittleEndian(s[at..at + 8])
  {
    EncodeLittleEndian(s[at..at + 8]);
    PlacesOfBytes();
    FromLittleEndian(s[at..at + 8])
  }

  /** Eight bytes of a longer string: what is below them, and what above. */
  lemma WordInside(s: Bytes, k: nat) returns (low: nat, high: nat)
    requires k + 8 <= |s|
    ensures low < Pow256(k) && FromLittleEndian(s[k..k + 8]) < U64_LIMIT
    ensures FromLittleEndian(s) == low + Pow256(k) * (FromLittleEndian(s[k..k + 8]) + U64_LIMIT * high)
    ensures high < Pow256(|s| - k - 8)
  {
    assert s == s[..k] + (s[k..k + 8] + s[k + 8..]);
    JoinedBytes(s[..k], s[k..k + 8] + s[k + 8..]);
    JoinedBytes(s[k..k + 8], s[k + 8..]);
    EncodeLittleEndian(s[..k]);
    EncodeLittleEndian(s[k..k + 8]);
    EncodeLittleEndian(s[k + 8..]);
    PlacesOfBytes();
    low, high := FromLittleEndian(s[..k]), FromLittleEndian(s[k + 8..]);
  }

  const TWO48 := 0x1_0000_0000_0000
  const TWO96 := 0x1_0000_0000_0000_0000_0000_0000
  const TWO152 := 0x100_0000_0000_0000_0000_0000_0000_0000_0000_0000
  const TWO192 := 0x1_0000_0000_0000_0000_0000_0000_0000_0000_0000_0000_0000_0000

  lemma PlacesOfBytes()
    ensures Pow256(0) == 1 && Pow256(6) == TWO48 && Pow256(8) == U64_LIMIT && Pow256(12) == TWO96
    ensures Pow256(19) == TWO152 && Pow256(24) == TWO192
  {
    assert Pow256(4) == 0x1_0000_0000;
    assert Pow256(10) == 0x1_0000_0000_0000_0000_0000;
    assert Pow256(15) == 0x100_0000_0000_0000_0000_0000_0000_0000;
    assert Pow256(22) == 0x1_0000_0000_0000_0000_0000_0000_0000_0000_0000_0000_0000;
  }

  /** Limb k of a number: its digit k to the base 2^51. */
  lemma Limb0(n: nat, word: nat, high: nat)
    requires n == word + U64_LIMIT * high
    ensures word % TWO51 == n % TWO51
  {
    assert n % TWO51 == (word + TWO51 * (0x2000 * high)) % TWO51;
  }

  lemma Limb1(n: nat, low: nat, word: nat, high: nat)
    requires low < TWO48 && n == low + TWO48 * (word + U64_LIMIT * high)
    ensures word / 0x8 % TWO51 == n / TWO51 % TWO51
  {
    assert n / TWO51 == word / 0x8 + TWO51 * (0x400 * high);
  }

  lemma Limb2(n: nat, low: nat, word: nat, high: nat)
    requires low < TWO96 && n == low + TWO96 * (word + U64_LIMIT * high)
    ensures word / 0x40 % TWO51 == n / TWO102 % TWO51
  {
    assert n / TWO102 == word / 0x40 + TWO51 * (0x80 * high);
  }

  lemma Limb3(n: nat, low: nat, word: nat, high: nat)
    requires low < TWO152 && n == low + TWO152 * (word + U64_LIMIT * high)
    ensures word / 0x2 % TWO51 == n / TWO153 % TWO51
  {
    var high' := 0x1000 * high;
    assert n == low + TWO152 * (word % 0x2) + TWO153 * (word / 0x2 + TWO51 * high');
    assert n / TWO153 == word / 0x2 + TWO51 * high';
  }

  lemma Limb4(n: nat, low: nat, word: nat, high: nat)
    requires low < TWO192 && n == low + TWO192 * (word + U64_LIMIT * high)
    ensures word / 0x1000 % TWO51 == n / TWO204 % TWO51
  {
    assert n / TWO204 == word / 0x1000 + TWO51 * (0x2 * high);
  }

  /** The digits 0 to 4 of a number to the base 2^51. */
  function Digits51(n: nat): Limbs {
    [n % TWO51, n / TWO51 % TWO51, n / TWO102 % TWO51, n / TWO153 % TWO51, n / TWO204 % TWO51]
  }

  lemma DigitsAreNumber(n: nat)
    ensures Eval(Digits51(n)) == n % TWO255 && Below(Digits51(n), TWO51)
  {
    var m1, m2, m3, m4, m5 := n / TWO51, n / TWO102, n / TWO153, n / TWO204, n / TWO255;
    assert m2 == m1 / TWO51;
    assert m3 == m2 / TWO51;
    assert m4 == m3 / TWO51;
    assert m5 == m4 / TWO51;
  }

  /** `format_fexpand`: the limbs stand for the number that the bytes are, without its top bit. */
  method Fexpand(output: array<u64>, input: array<byte>)
    requires output.Length == 5 && input.Length == 32
    modifies output
    ensures Below(output[..], TWO51) && Eval(output[..]) == FromLittleEndian(input[..]) % TWO255
  {
    hide FromLittleEndian, Pow256, Eval;
    ghost var n := FromLittleEndian(input[..]);
    PlacesOfBytes();
    var i0, i1, i2 := GetLe64(input[..], 0), GetLe64(input[..], 6), GetLe64(input[..], 12);
    var i3, i4 := GetLe64(input[..], 19), GetLe64(input[..], 24);
    ghost var low, high := WordInside(input[..], 0);
    Limb0(n, i0, high);
    low, high := WordInside(input[..], 6);
    Limb1(n, low, i1, high);
    low, high := WordInside(input[..], 12);
    Limb2(n, low, i2, high);
    low, high := WordInside(input[..], 19);
    Limb3(n, low, i3, high);
    low, high := WordInside(input[..], 24);
    Limb4(n, low, i4, high);
    output[0] := i0 % TWO51;
    output[1] := i1 / 0x8 % TWO51;
    output[2] := i2 / 0x40 % TWO51;
    output[3] := i3 / 0x2 % TWO51;
    output[4] := i4 / 0x1000 % TWO51;
    assert output[..] == Digits51(n);
    DigitsAreNumber(n);
  }

  // ---------------------------------------------------------------- masks

  /** `u64_eq_mask`. */
  function EqMask(a: u64, b: u64): u64 {
    var x := Xor(a, b);
    var minusX := (U64_LIMIT - 1 - x + 1) % U64_LIMIT;
    var xnx := Or(x, minusX) / HALF;
    (xnx - 1) % U64_LIMIT
  }

  /** `u64_gte_mask`. */
  function GteMask(a: u64, b: u64): u64 {
    var xXorY := Xor(a, b);
    var xSubY := (a - b) % U64_LIMIT;
    var xSubYXorY := Xor(xSubY, b);
    var q := Or(xXorY, xSubYXorY);
    var xXorQ := Xor(a, q);
    (xXorQ / HALF - 1) % U64_LIMIT
  }

  function MaskOf(b: bool): u64 {
    if b then U64_LIMIT - 1 else 0
  }

  lemma TopOfWord()
    ensures Pow2(63) == HALF && Pow2(64) == U64_LIMIT
  {
    Pow2Of64();
    assert Pow2(64) == 2 * Pow2(63);
  }

  lemma EqMaskTells(a: u64, b: u64)
    ensures EqMask(a, b) == MaskOf(a == b)
  {
    hide Xor, Or, Pow2;
    TopOfWord();
    XorTop(a, b, 63);
    XorIsZero(a, b);
    var x := Xor(a, b);
    var minusX := (U64_LIMIT - x) % U64_LIMIT;
    OrFits(x, minusX, 63);
    OrFits(x, minusX, 64);
  }

  /** All ones exactly when a is at least b, for any two words. */
  lemma GteMaskTells(a: u64, b: u64)
    ensures GteMask(a, b) == MaskOf(a >= b)
  {
    hide Xor, Or, Pow2;
    TopOfWord();
    var difference := (a - b) % U64_LIMIT;
    var p, r := Xor(a, b), Xor(difference, b);
    XorTop(a, b, 63);
    XorTop(difference, b, 63);
    OrFits(p, r, 63);
    OrFits(p, r, 64);
    XorTop(a, Or(p, r), 63);
  }

  lemma MaskedWord(v: u64, b: bool)
    ensures And(v, MaskOf(b)) == if b then v else 0
  {
    hide And, Pow2;
    TopOfWord();
    AndCommutes(v, MaskOf(b));
    if b {
      AndOnes(v, 64);
    } else {
      NothingMasked(v);
    }
  }

  lemma NothingMasked(v: nat)
    ensures And(0, v) == 0
  {
  }

  lemma MasksTogether(a: bool, b: bool)
    ensures And(MaskOf(a), MaskOf(b)) == MaskOf(a && b)
  {
    hide And;
    MaskedWord(MaskOf(a), b);
  }

  // ---------------------------------------------------------------- the contraction

  function Carried(s: Limbs): Limbs {
    CarryAt(CarryAt(CarryAt(CarryAt(s, 0), 1), 2), 3)
  }

  lemma CarriedKeepsValue(s: Limbs)
    ensures Eval(Carried(s)) == Eval(s)
  {
    hide Eval, CarryAt;
    var s1 := CarryAt(s, 0);
    var s2 := CarryAt(s1, 1);
    CarryKeepsValue(s, 0);
    CarryKeepsValue(s1, 1);
    CarryKeepsValue(s2, 2);
    CarryKeepsValue(CarryAt(s2, 2), 3);
  }

  /** `format_fcontract_first_carry_pass` and `format_fcontract_second_carry_pass`, which are alike. */
  method CarryPass(input: array<u64>)
    requires input.Length == 5 && Below(input[..], HALF)
    modifies input
    ensures input[..] == Carried(old(input[..]))
  {
    var t0, t1, t2, t3, t4 := input[0], input[1], input[2], input[3], input[4];
    var t1': u64 := t1 + t0 / TWO51;
    var t2': u64 := t2 + t1' / TWO51;
    var t3': u64 := t3 + t2' / TWO51;
    var t4': u64 := t4 + t3' / TWO51;
    input[0] := t0 % TWO51;
    input[1] := t1' % TWO51;
    input[2] := t2' % TWO51;
    input[3] := t3' % TWO51;
    input[4] := t4';
  }

  /** `modulo_carry_top`. */
  method ModuloCarryTop(b: array<u64>)
    requires b.Length == 5 && b[0] < TWO51 && b[4] < U64_LIMIT
    modifies b
    ensures b[..] == CarryTop(old(b[..]))
  {
    var b4, b0 := b[4], b[0];
    b[4] := b4 % TWO51;
    b[0] := b0 + 19 * (b4 / TWO51);
  }

  /** Only the lowest limb may have more than 51 bits, and by little. */
  predicate NearlyDigits(s: Limbs) {
    Below(s, TWO51 + 0x2_0000) && s[1] < TWO51 && s[2] < TWO51 && s[3] < TWO51 && s[4] < TWO51
  }

  lemma FirstPassBounds(s: Limbs)
    requires Below(s, HALF)
    ensures var t := Carried(s);
            t[0] < TWO51 && t[4] < U64_LIMIT && Below(t, U64_LIMIT)
            && NearlyDigits(CarryTop(t))
  {
  }

  /** After the first pass a second one leaves five digits, because what comes round then falls on a
      lowest limb that has just been emptied. */
  lemma SecondPassBounds(s: Limbs)
    requires NearlyDigits(s)
    ensures var t := Carried(s);
            && t[0] < TWO51 && t[4] < U64_LIMIT
            && Below(CarryTop(t), TWO51 + 1) && Below(CarryAt(CarryTop(t), 0), TWO51)
  {
    var c0, c1, c2, c3 := CarriedIs(s);
    hide Carried;
    assert c0 == 0 ==> c3 == 0 && Carried(s) == s;
    assert c0 <= 1 && c1 <= 1 && c2 <= 1 && c3 <= 1;
  }

  /** The limbs after a pass, by what is carried out of each. */
  lemma CarriedIs(s: Limbs) returns (c0: int, c1: int, c2: int, c3: int)
    ensures c0 == s[0] / TWO51 && c1 == (s[1] + c0) / TWO51 && c2 == (s[2] + c1) / TWO51 && c3 == (s[3] + c2) / TWO51
    ensures Carried(s) == [s[0] % TWO51, (s[1] + c0) % TWO51, (s[2] + c1) % TWO51, (s[3] + c2) % TWO51, s[4] + c3]
  {
    c0 := s[0] / TWO51;
    c1 := (s[1] + c0) / TWO51;
    c2 := (s[2] + c1) / TWO51;
    c3 := (s[3] + c2) / TWO51;
  }

  /** `format_fcontract_first_carry_full`, then `format_fcontract_second_carry_full`. */
  method CarryTwice(input: array<u64>)
    requires input.Length == 5 && Below(input[..], HALF)
    modifies input
    ensures Below(input[..], TWO51) && Same(Eval(input[..]), old(Eval(input[..])))
  {
    hide Eval, Same, Carried;
    ghost var s := input[..];
    FirstPassBounds(s);
    CarryPass(input);
    CarriedKeepsValue(s);
    CarryTopKeepsElement(input[..]);
    ModuloCarryTop(input);
    ghost var t := input[..];
    SecondPassBounds(t);
    CarryPass(input);
    CarriedKeepsValue(t);
    ghost var u := input[..];
    CarryTopKeepsElement(u);
    ModuloCarryTop(input);
    ghost var v := input[..];
    var i0, i1 := input[0], input[1];
    input[0] := i0 % TWO51;
    input[1] := i1 + i0 / TWO51;
    assert input[..] == CarryAt(v, 0);
    CarryKeepsValue(v, 0);
    SameChain(Eval(v), Eval(t), Eval(s));
  }

  const P0: u64 := 0x7ffff_ffff_ffed
  const P1: u64 := 0x7ffff_ffff_ffff

  lemma TrimmedValue(s: Limbs, t: Limbs, above: bool)
    requires Below(s, TWO51) && above == (s[0] >= P0 && s[1] == P1 && s[2] == P1 && s[3] == P1 && s[4] == P1)
    requires t == if above then [s[0] - P0, 0, 0, 0, 0] else s
    ensures Below(t, TWO51) && Eval(t) == Eval(s) % P
  {
  }

  /** `format_fcontract_trim`: the modulus is subtracted if that is possible, by a mask. */
  method Trim(input: array<u64>)
    requires input.Length == 5 && Below(input[..], TWO51)
    modifies input
    ensures Below(input[..], TWO51) && Eval(input[..]) == old(Eval(input[..])) % P
  {
    hide Eval, And, EqMask, GteMask, MaskOf;
    ghost var s := input[..];
    var a0, a1, a2, a3, a4 := input[0], input[1], input[2], input[3], input[4];
    var mask0, mask1, mask2 := GteMask(a0, P0), EqMask(a1, P1), EqMask(a2, P1);
    var mask3, mask4 := EqMask(a3, P1), EqMask(a4, P1);
    ghost var above := AllMasks(a0, a1, a2, a3, a4);
    var mask := And(And(And(And(mask0, mask1), mask2), mask3), mask4);
    MaskedWord(P0, above);
    MaskedWord(P1, above);
    input[0] := a0 - And(P0, mask);
    input[1] := a1 - And(P1, mask);
    input[2] := a2 - And(P1, mask);
    input[3] := a3 - And(P1, mask);
    input[4] := a4 - And(P1, mask);
    TrimmedValue(s, input[..], above);
  }

  lemma AllMasks(a0: u64, a1: u64, a2: u64, a3: u64, a4: u64) returns (above: bool)
    ensures And(And(And(And(GteMask(a0, P0), EqMask(a1, P1)), EqMask(a2, P1)), EqMask(a3, P1)), EqMask(a4, P1))
            == MaskOf(above)
    ensures above == (a0 >= P0 && a1 == P1 && a2 == P1 && a3 == P1 && a4 == P1)
  {
    hide And, EqMask, GteMask, MaskOf;
    GteMaskTells(a0, P0);
    EqMaskTells(a1, P1);
    EqMaskTells(a2, P1);
    EqMaskTells(a3, P1);
    EqMaskTells(a4, P1);
    MasksTogether(a0 >= P0, a1 == P1);
    MasksTogether(a0 >= P0 && a1 == P1, a2 == P1);
    MasksTogether(a0 >= P0 && a1 == P1 && a2 == P1, a3 == P1);
    MasksTogether(a0 >= P0 && a1 == P1 && a2 == P1 && a3 == P1, a4 == P1);
    above := a0 >= P0 && a1 == P1 && a2 == P1 && a3 == P1 && a4 == P1;
  }

  // ---------------------------------------------------------------- the bytes

  /** A limb shifted left by n bits, cut to a word, over one whose rest has n bits. */
  function Packed(high: u64, low: u64, p: nat): u64 {
    Or(high * p % U64_LIMIT, low) % U64_LIMIT
  }

  lemma PackedIsSum(high: u64, low: u64, n: nat, q: nat)
    requires low < Pow2(n) && Pow2(n) * q == U64_LIMIT
    ensures Packed(high, low, Pow2(n)) == high % q * Pow2(n) + low
  {
    hide Or, Pow2;
    var p := Pow2(n);
    CutShift(high, p, q);
    OrIsSum(high % q, low, n);
    SumFits(high % q, low, p, q);
  }

  lemma CutShift(x: nat, p: nat, q: nat)
    requires p > 0 && q > 0 && p * q == U64_LIMIT
    ensures x * p % U64_LIMIT == x % q * p
  {
    var d, r := x / q, x % q;
    assert x == d * q + r;
    assert x * p == d * (p * q) + r * p;
    SumFits(r, 0, p, q);
  }

  lemma SumFits(r: nat, low: nat, p: nat, q: nat)
    requires r < q && low < p
    ensures r * p + low < p * q
  {
    assert (r + 1) * p <= q * p;
  }

  lemma ShiftsOfStore()
    ensures Pow2(51) == TWO51 && Pow2(38) == 0x40_0000_0000 && Pow2(25) == 0x200_0000 && Pow2(12) == 0x1000
  {
    assert Pow2(8) == 0x100;
    assert Pow2(16) == 0x1_0000;
    assert Pow2(24) == 0x100_0000;
    assert Pow2(32) == 0x1_0000_0000;
    assert Pow2(40) == 0x100_0000_0000;
    assert Pow2(48) == 0x1_0000_0000_0000;
  }

  /** The four words of 64 bits are the five limbs of 51. */
  lemma WordsAreLimbs(t: Limbs)
    requires Below(t, TWO51)
    ensures t[1] % 0x2000 * TWO51 + t[0]
            + U64_LIMIT * (t[2] % 0x400_0000 * 0x40_0000_0000 + t[1] / 0x2000)
            + U64_LIMIT * U64_LIMIT * (t[3] % 0x80_0000_0000 * 0x200_0000 + t[2] / 0x400_0000)
            + U64_LIMIT * U64_LIMIT * U64_LIMIT * (t[4] * 0x1000 + t[3] / 0x80_0000_0000) == Eval(t)
  {
  }

  lemma {:induction false} FourWords(a: u64, b: u64, c: u64, d: u64)
    ensures FromLittleEndian(LittleEndian(8, a) + LittleEndian(8, b) + LittleEndian(8, c) + LittleEndian(8, d)) ==
            a + U64_LIMIT * b + U64_LIMIT * U64_LIMIT * c + U64_LIMIT * U64_LIMIT * U64_LIMIT * d
  {
    hide FromLittleEndian, LittleEndian, Pow256;
    var w, x, y, z := LittleEndian(8, a), LittleEndian(8, b), LittleEndian(8, c), LittleEndian(8, d);
    PlacesOfBytes();
    DecodeLittleEndian(8, a);
    DecodeLittleEndian(8, b);
    DecodeLittleEndian(8, c);
    DecodeLittleEndian(8, d);
    assert w + x + y + z == w + (x + (y + z));
    JoinedBytes(w, x + (y + z));
    JoinedBytes(x, y + z);
    JoinedBytes(y, z);
  }

  /** `format_fcontract_store`. */
  method ContractStore(output: array<byte>, input: array<u64>)
    requires output.Length == 32 && input.Length == 5 && Below(input[..], TWO51)
    modifies output
    ensures FromLittleEndian(output[..]) == Eval(input[..])
  {
    hide FromLittleEndian, LittleEndian, Pow2, Packed, Eval;
    ghost var s := input[..];
    var t0, t1, t2, t3, t4 := input[0], input[1], input[2], input[3], input[4];
    WordsOfStore(s);
    var o0 := Packed(t1, t0, 0x8_0000_0000_0000);
    var o1 := Packed(t2, t1 / 0x2000, 0x40_0000_0000);
    var o2 := Packed(t3, t2 / 0x400_0000, 0x200_0000);
    var o3 := Packed(t4, t3 / 0x80_0000_0000, 0x1000);
    PutLe64(output, 0, o0);
    PutLe64(output, 8, o1);
    PutLe64(output, 16, o2);
    PutLe64(output, 24, o3);
    assert output[..] == LittleEndian(8, o0) + LittleEndian(8, o1) + LittleEndian(8, o2) + LittleEndian(8, o3);
    FourWords(o0, o1, o2, o3);
  }

  lemma WordsOfStore(t: Limbs)
    requires Below(t, TWO51)
    ensures Packed(t[1], t[0], 0x8_0000_0000_0000)
            + U64_LIMIT * Packed(t[2], t[1] / 0x2000, 0x40_0000_0000)
            + U64_LIMIT * U64_LIMIT * Packed(t[3], t[2] / 0x400_0000, 0x200_0000)
            + U64_LIMIT * U64_LIMIT * U64_LIMIT * Packed(t[4], t[3] / 0x80_0000_0000, 0x1000) == Eval(t)
  {
    hide Pow2, Packed, Eval;
    ShiftsOfStore();
    PackedIsSum(t[1], t[0], 51, 0x2000);
    PackedIsSum(t[2], t[1] / 0x2000, 38, 0x400_0000);
    PackedIsSum(t[3], t[2] / 0x400_0000, 25, 0x80_0000_0000);
    PackedIsSum(t[4], t[3] / 0x80_0000_0000, 12, 0x10_0000_0000_0000);
    WordsAreLimbs(t);
  }

  /** `format_fcontract`: the number from 0 to P - 1 that the limbs stand for, in 32 bytes. */
  method Fcontract(output: array<byte>, input: array<u64>)
    requires output.Length == 32 && input.Length == 5 && Below(input[..], HALF)
    modifies output, input
    ensures FromLittleEndian(output[..]) == old(Eval(input[..])) % P
  {
    hide Eval, FromLittleEndian;
    CarryTwice(input);
    Trim(input);
    ContractStore(output, input);
  }

  /** `format_scalar_of_point`: the quotient of the two coordinates, by the inverse as a power. */
  method ScalarOfPoint(scalar: array<byte>, x: array<u64>, z: array<u64>)
    requires scalar.Length == 32 && x.Length == 5 && z.Length == 5
    requires Below(x[..], 0x40_0000_0000_0000) && Below(z[..], 0x40_0000_0000_0000)
    modifies scalar
    ensures FromLittleEndian(scalar[..]) == old(Eval(x[..])) * Pow(old(Eval(z[..])), P - 2) % P
  {
    hide Eval, FromLittleEndian, Pow;
    ghost var a, b := Eval(x[..]), Eval(z[..]);
    var zmone := new u64[5](_ => 0);
    var sc := new u64[5](_ => 0);
    Crecip(zmone, z);
    ghost var inverse := Eval(zmone[..]);
    ReducedIsSmall(zmone[..]);
    Fmul(sc, x, zmone, 0x40_0000_0000_0000, 0x20_0000_0000_0000);
    SameProducts(a, a, inverse, Pow(b, P - 2));
    ReducedIsSmall(sc[..]);
    Fcontract(scalar, sc);
  }

  /** The two forms write the same bytes for the same element. */
  lemma FormsAgree(o: Bytes, limbs: Limbs, p: Bytes, n: seq<int>)
    requires |o| == |p| == 32 && Same(Eval(limbs), Field16.Eval(n))
    requires FromLittleEndian(o) == Eval(limbs) % P && FromLittleEndian(p) == Field16.Eval(n) % P
    ensures o == p
  {
    hide Eval, FromLittleEndian;
    SameBytes(o, p);
  }

  /** Bytes that are expanded and contracted again are the bytes of the same element, so exactly those
      of a number below the modulus come back. */
  lemma ExpandContract(s: Bytes, t: Bytes, limbs: Limbs)
    requires |s| == |t| == 32
    requires Eval(limbs) == FromLittleEndian(s) % TWO255 && FromLittleEndian(t) == Eval(limbs) % P
    ensures t == s <==> FromLittleEndian(s) < P
  {
    hide Eval, FromLittleEndian;
    if FromLittleEndian(s) < P {
      SameBytes(s, t);
    }
  }
}
