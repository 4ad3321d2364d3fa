/**
 The second form of the same field: sixteen signed limbs of 16 bits in 64-bit integers, by loops.
 `x >> 16` rounds down and `x & 0xffff` is the remainder, also for negative numbers. Assigning to a
 limb is again the claim that nothing overflows.
 */
module Field16 {
  import opened Field
  import opened Words
  import opened ByteStrings

  const R := 0x1_0000
  const I64 := 0x8000_0000_0000_0000

  type i64 = x: int | -I64 <= x < I64

  /** The number that limbs stand for, lowest first. */
  function Eval(s: seq<int>): int {
    if s == [] then 0 else s[0] + R * Eval(s[1..])
  }

  function PowR(n: nat): nat {
    if n == 0 then 1 else R * PowR(n - 1)
  }

  lemma {:induction false} EvalUpdate(s: seq<int>, k: nat, v: int)
    requires k < |s|
    ensures Eval(s[k := v]) == Eval(s) + (v - s[k]) * PowR(k)
  {
    if k == 0 {
      assert s[0 := v][1..] == s[1..];
    } else {
      EvalUpdate(s[1..], k - 1, v);
      assert s[k := v][1..] == s[1..][k - 1 := v];
      Move(v - s[k], PowR(k - 1));
    }
  }

  lemma Move(d: int, p: int)
    ensures R * (d * p) == d * (R * p)
  {
  }

  lemma {:induction false} EvalJoined(s: seq<int>, t: seq<int>)
    ensures Eval(s + t) == Eval(s) + PowR(|s|) * Eval(t)
  {
    if s == [] {
      assert s + t == t;
    } else {
      EvalJoined(s[1..], t);
      assert (s + t)[1..] == s[1..] + t;
      Move(PowR(|s| - 1), Eval(t));
      Distribute(PowR(|s| - 1), Eval(t));
    }
  }

  lemma Distribute(p: int, e: int)
    ensures R * (p * e) == (R * p) * e
  {
  }

  lemma EvalOfOneMore(s: seq<int>, k: nat)
    requires k < |s|
    ensures Eval(s[..k + 1]) == Eval(s[..k]) + PowR(k) * s[k]
  {
    EvalJoined(s[..k], [s[k]]);
    assert s[..k] + [s[k]] == s[..k + 1];
    assert [s[k]][1..] == [];
  }

  lemma {:induction false} PowRSum(a: nat, b: nat)
    ensures PowR(a + b) == PowR(a) * PowR(b)
  {
    if a > 0 {
      PowRSum(a - 1, b);
      Distribute(PowR(a - 1), PowR(b));
    }
  }

  lemma PowR16()
    ensures PowR(16) == 2 * P + 38
  {
    assert PowR(4) == 0x1_0000_0000_0000_0000;
    PowRSum(4, 4);
    PowRSum(8, 8);
  }

  // ---------------------------------------------------------------- carrying

  datatype Range = Range(lo: int, hi: int)

  predicate In(x: int, r: Range) {
    r.lo <= x <= r.hi
  }

  /** How large the carry out of limb i can be, if limb 0 is in one range and the others in another. */
  function CarryOut(first: Range, rest: Range, i: nat): Range {
    if i == 0 then Range(first.lo / R, first.hi / R)
    else
      var c := CarryOut(first, rest, i - 1);
      Range((rest.lo + c.lo) / R, (rest.hi + c.hi) / R)
  }

  /** Limb i before its own carry, in a pass. */
  function Arrived(first: Range, rest: Range, i: nat): Range {
    if i == 0 then first
    else
      var c := CarryOut(first, rest, i - 1);
      Range(rest.lo + c.lo, rest.hi + c.hi)
  }

  /** The bottom limb after a pass. */
  function Bottom(first: Range, rest: Range): Range {
    var c := CarryOut(first, rest, 15);
    Range(38 * c.lo, R - 1 + 38 * c.hi)
  }

  predicate FitsWord(r: Range) {
    -I64 <= r.lo && r.hi < I64
  }

  ghost predicate PassFits(first: Range, rest: Range) {
    && (forall i :: 0 <= i < 16 ==> FitsWord(Arrived(first, rest, i)))
    && FitsWord(Bottom(first, rest))
  }

  ghost predicate InRanges(s: seq<int>, first: Range, rest: Range) {
    |s| == 16 && In(s[0], first) && forall i :: 1 <= i < 16 ==> In(s[i], rest)
  }

  const DIGIT := Range(0, R - 1)

  /** One turn of the loop, as numbers. */
  function CarryAt(s: seq<int>, i: nat): seq<int>
    requires |s| == 16 && i < 16
  {
    var c := s[i] / R;
    if i == 15 then s[0 := s[0] + 38 * c][15 := s[15] % R] else s[i + 1 := s[i + 1] + c][i := s[i] % R]
  }

  lemma CarryValue(s: seq<int>, i: nat)
    requires |s| == 16 && i < 16
    ensures Eval(s) == Eval(CarryAt(s, i)) + if i == 15 then 2 * (s[15] / R) * P else 0
  {
    if i == 15 {
      CarryValueRound(s);
    } else {
      CarryValueUp(s, i);
    }
  }

  lemma CarryValueUp(s: seq<int>, i: nat)
    requires |s| == 16 && i < 15
    ensures Eval(CarryAt(s, i)) == Eval(s)
  {
    hide Eval, CarryAt;
    CarryAtIs(s, i);
    QuotientAndRest(s[i]);
    CarryUp(s, i, s[i] / R, s[i] % R);
  }

  lemma CarryAtIs(s: seq<int>, i: nat)
    requires |s| == 16 && i < 15
    ensures CarryAt(s, i) == s[i + 1 := s[i + 1] + s[i] / R][i := s[i] % R]
  {
  }

  lemma CarryValueRound(s: seq<int>)
    requires |s| == 16
    ensures Eval(s) == Eval(CarryAt(s, 15)) + 2 * (s[15] / R) * P
  {
    hide Eval;
    CarryRound(s, s[15] / R, s[15] % R);
  }

  lemma TwoUpdates(s: seq<int>, k: nat, v: int, i: nat, w: int)
    requires k < |s| && i < |s| && k != i
    ensures Eval(s[k := v][i := w]) == Eval(s) + (v - s[k]) * PowR(k) + (w - s[i]) * PowR(i)
  {
    EvalUpdate(s, k, v);
    EvalUpdate(s[k := v], i, w);
  }

  lemma QuotientAndRest(x: int)
    ensures x == R * (x / R) + x % R
  {
  }

  lemma CarryUp(s: seq<int>, i: nat, c: int, w: int)
    requires |s| == 16 && i < 15 && s[i] == R * c + w
    ensures Eval(s[i + 1 := s[i + 1] + c][i := w]) == Eval(s)
  {
    hide Eval, PowR;
    Powers(i);
    TwoUpdates(s, i + 1, s[i + 1] + c, i, w);
    NextCarry(c, w - s[i], PowR(i), PowR(i + 1));
  }

  lemma CarryRound(s: seq<int>, c: int, w: int)
    requires |s| == 16 && s[15] == R * c + w
    ensures Eval(s) == Eval(s[0 := s[0] + 38 * c][15 := w]) + 2 * c * P
  {
    hide Eval, PowR;
    Powers(0);
    Powers(15);
    PowR16();
    TwoUpdates(s, 0, s[0] + 38 * c, 15, w);
    TopCarry(c, w - s[15], PowR(15));
  }

  lemma Powers(i: nat)
    ensures PowR(0) == 1 && PowR(i + 1) == R * PowR(i)
  {
  }

  lemma TopCarry(c: int, d: int, p: int)
    requires R * p == 2 * P + 38 && d == -R * c
    ensures d * p == -2 * c * P - 38 * c
  {
    assert d * p == -c * (R * p);
  }

  lemma NextCarry(c: int, d: int, p: int, q: int)
    requires q == R * p && d == -R * c
    ensures c * q + d * p == 0
  {
  }

  lemma DivideInRange(x: int, r: Range)
    requires In(x, r)
    ensures In(x / R, Range(r.lo / R, r.hi / R)) && In(x % R, DIGIT)
  {
  }

  lemma ArrivesFirst(first: Range, rest: Range)
    ensures Arrived(first, rest, 0) == first
  {
  }

  /** One turn keeps to the ranges: the carry, and where it arrives. */
  lemma TurnInRange(first: Range, rest: Range, i: nat, x: int, next: int)
    requires i < 16 && PassFits(first, rest) && In(x, Arrived(first, rest, i))
    requires if i < 15 then In(next, rest) else In(next, DIGIT)
    ensures In(x % R, DIGIT) && In(x / R, CarryOut(first, rest, i))
    ensures i < 15 ==> In(next + x / R, Arrived(first, rest, i + 1)) && -I64 <= next + x / R < I64
    ensures i == 15 ==> In(next + 38 * (x / R), Bottom(first, rest)) && -I64 <= next + 38 * (x / R) < I64
  {
    DivideInRange(x, Arrived(first, rest, i));
    assert FitsWord(Arrived(first, rest, i + 1)) || i == 15;
  }

  /** `carry`: one pass from the bottom to the top and round to the bottom, where c comes in. */
  method Carry(o: array<i64>, ghost first: Range, ghost rest: Range) returns (ghost c: int)
    requires o.Length == 16 && InRanges(o[..], first, rest) && PassFits(first, rest)
    modifies o
    ensures old(Eval(o[..])) == Eval(o[..]) + 2 * c * P
    ensures InRanges(o[..], Bottom(first, rest), DIGIT) && In(o[0] - 38 * c, DIGIT) && In(c, CarryOut(first, rest, 15))
  {
    ArrivesFirst(first, rest);
    hide Eval, PassFits, Arrived, CarryOut, Bottom;
    ghost var e := Eval(o[..]);
    c := 0;
    for i := 0 to 16
      invariant e == Eval(o[..]) + 2 * c * P && (i < 16 ==> c == 0)
      invariant i < 16 ==> In(o[i], Arrived(first, rest, i))
      invariant forall k :: 1 <= k < i ==> In(o[k], DIGIT)
      invariant (i > 0 ==> In(o[0] - 38 * c, DIGIT)) && (i == 16 ==> In(o[0], Bottom(first, rest)))
      invariant i == 16 ==> In(c, CarryOut(first, rest, 15))
      invariant forall k :: i < k < 16 ==> In(o[k], rest)
    {
      ghost var s := o[..];
      CarryValue(s, i);
      TurnInRange(first, rest, i, o[i], o[(i + 1) % 16]);
      var q := o[i] / R;
      o[(i + 1) % 16] := o[(i + 1) % 16] + (if i == 15 then 38 else 1) * q;
      o[i] := o[i] % R;
      assert o[..] == CarryAt(s, i);
      c := if i == 15 then q else 0;
    }
  }

  // ---------------------------------------------------------------- multiplication

  /** The limbs a multiplication takes, what it adds them up to, and what a first pass leaves. */
  const FACTOR := Range(-0x400_0000, 0x400_0000)
  const SUMS := Range(-39 * 0x100_0000_0000_0000, 39 * 0x100_0000_0000_0000)
  const CARRIED := Range(-0x20_0000_0000_0000, 0x20_0000_0000_0000)

  const NEARLY := Range(-38, R + 37)

  /** As multiplication leaves them: all digits, but for a little in the bottom limb. */
  ghost predicate Tidy(s: seq<int>) {
    InRanges(s, NEARLY, DIGIT)
  }

  lemma {:induction false} CarryOutOfSums(i: nat)
    ensures var c := CarryOut(SUMS, SUMS, i); -0x8000_0000_0000 <= c.lo && c.hi <= 0x8000_0000_0000
  {
    if i > 0 {
      CarryOutOfSums(i - 1);
    }
  }

  lemma FirstPassFits()
    ensures PassFits(SUMS, SUMS)
    ensures CARRIED.lo <= Bottom(SUMS, SUMS).lo && Bottom(SUMS, SUMS).hi <= CARRIED.hi
  {
    hide CarryOut;
    CarryOutOfSums(15);
    forall i | 0 <= i < 16
      ensures FitsWord(Arrived(SUMS, SUMS, i))
    {
      if i > 0 {
        CarryOutOfSums(i - 1);
      }
    }
  }

  /** The excess of the bottom limb is used up after four limbs; from there on at most one is carried. */
  lemma {:induction false} CarryOutOfDigits(i: nat)
    ensures var c := CarryOut(CARRIED, DIGIT, i);
            && -0x20_0000_0000 <= c.lo && c.hi <= 0x20_0000_0000
            && (i == 1 ==> -0x20_0000 <= c.lo && c.hi <= 0x20_0000)
            && (i == 2 ==> -0x20 <= c.lo && c.hi <= 0x20)
            && (i >= 3 ==> -1 <= c.lo && c.hi <= 1)
  {
    if i > 0 {
      CarryOutOfDigits(i - 1);
    }
  }

  lemma SecondPassFits()
    ensures PassFits(CARRIED, DIGIT)
    ensures -38 <= Bottom(CARRIED, DIGIT).lo && Bottom(CARRIED, DIGIT).hi <= R - 1 + 38
  {
    hide CarryOut;
    CarryOutOfDigits(15);
    forall i | 0 <= i < 16
      ensures FitsWord(Arrived(CARRIED, DIGIT, i))
    {
      if i > 0 {
        CarryOutOfDigits(i - 1);
      }
    }
  }

  method CarryTwice(o: array<i64>)
    requires o.Length == 16 && InRanges(o[..], SUMS, SUMS)
    modifies o
    ensures Same(Eval(o[..]), old(Eval(o[..]))) && Tidy(o[..])
  {
    hide Eval, Same, PassFits, Bottom, CarryOut;
    ghost var e := Eval(o[..]);
    FirstPassFits();
    ghost var c := Carry(o, SUMS, SUMS);
    SecondPassFits();
    ghost var d := Carry(o, CARRIED, DIGIT);
    Multiples(Eval(o[..]), 2 * c + 2 * d);
    SameFlip(e, Eval(o[..]));
  }

  lemma Product(x: int, y: int)
    requires In(x, FACTOR) && In(y, FACTOR)
    ensures -0x10_0000_0000_0000 <= x * y <= 0x10_0000_0000_0000
  {
    var u, v := if x < 0 then -x else x, if y < 0 then -y else y;
    Times(u, v, 0x400_0000);
    Signs(x, y, u, v);
  }

  lemma Times(u: nat, v: nat, m: nat)
    requires u <= m && v <= m
    ensures 0 <= u * v <= m * m
  {
    assert u * v <= u * m <= m * m;
  }

  lemma Signs(x: int, y: int, u: int, v: int)
    requires (u == x || u == -x) && (v == y || v == -y)
    ensures x * y == u * v || x * y == -(u * v)
  {
  }

  /** What the double loop has added up: whole rows of b for the limbs of a before i, and in row i
      the limbs of b before j. */
  function Partial(a: seq<int>, b: seq<int>, i: nat, j: nat): int
    requires i < |a| && j <= |b|
  {
    Eval(a[..i]) * Eval(b) + PowR(i) * a[i] * Eval(b[..j])
  }

  lemma PartialStep(a: seq<int>, b: seq<int>, i: nat, j: nat)
    requires i < |a| && j < |b|
    ensures Partial(a, b, i, j + 1) == Partial(a, b, i, j) + a[i] * b[j] * PowR(i + j)
  {
    EvalOfOneMore(b, j);
    PowRSum(i, j);
    StepIdentity(PowR(i), PowR(j), PowR(i + j), a[i], b[j], Eval(b[..j]), Eval(b[..j + 1]));
  }

  lemma StepIdentity(p: int, q: int, pq: int, x: int, y: int, e: int, f: int)
    requires f == e + q * y && pq == p * q
    ensures p * x * f == p * x * e + x * y * pq
  {
    assert p * x * (q * y) == x * y * (p * q);
  }

  lemma RowComplete(a: seq<int>, b: seq<int>, i: nat)
    requires i < |a|
    ensures Partial(a, b, i, |b|) == Eval(a[..i + 1]) * Eval(b)
  {
    EvalOfOneMore(a, i);
    assert b[..|b|] == b;
    RowIdentity(Eval(a[..i]), Eval(a[..i + 1]), PowR(i), a[i], Eval(b));
  }

  lemma RowIdentity(x: int, y: int, p: int, d: int, e: int)
    requires y == x + p * d
    ensures x * e + p * d * e == y * e
  {
  }

  lemma RowBegins(a: seq<int>, b: seq<int>, i: nat)
    requires i < |a|
    ensures Partial(a, b, i, 0) == Eval(a[..i]) * Eval(b)
  {
    assert b[..0] == [];
  }

  /** The turns of the inner loop for one limb of a. */
  method AddRow(t: array<i64>, a: array<i64>, b: array<i64>, i: nat)
    requires t.Length == 31 && a.Length == 16 && b.Length == 16 && i < 16 && t != a && t != b
    requires InRanges(a[..], FACTOR, FACTOR) && InRanges(b[..], FACTOR, FACTOR)
    requires Eval(t[..]) == Partial(a[..], b[..], i, 0)
    requires forall k :: 0 <= k < 31 ==> -0x10_0000_0000_0000 * i <= t[k] <= 0x10_0000_0000_0000 * i
    modifies t
    ensures Eval(t[..]) == Partial(a[..], b[..], i, 16)
    ensures forall k :: 0 <= k < 31 ==> -0x10_0000_0000_0000 * (i + 1) <= t[k] <= 0x10_0000_0000_0000 * (i + 1)
  {
    hide Eval, Partial;
    ghost var x, y := a[..], b[..];
    for j := 0 to 16
      invariant a[..] == x && b[..] == y
      invariant Eval(t[..]) == Partial(x, y, i, j)
      invariant forall k :: 0 <= k < 31 && !(i <= k < i + j) ==>
                  -0x10_0000_0000_0000 * i <= t[k] <= 0x10_0000_0000_0000 * i
      invariant forall k :: i <= k < i + j ==> -0x10_0000_0000_0000 * (i + 1) <= t[k] <= 0x10_0000_0000_0000 * (i + 1)
    {
      ghost var s := t[..];
      assert a[i] == x[i] && b[j] == y[j];
      Product(a[i], b[j]);
      PartialStep(x, y, i, j);
      EvalUpdate(s, i + j, s[i + j] + a[i] * b[j]);
      t[i + j] := t[i + j] + a[i] * b[j];
      assert t[..] == s[i + j := s[i + j] + a[i] * b[j]];
    }
  }

  /** The double loop: the limbs of the product, not yet reduced. */
  method Convolve(t: array<i64>, a: array<i64>, b: array<i64>)
    requires t.Length == 31 && a.Length == 16 && b.Length == 16 && t != a && t != b
    requires InRanges(a[..], FACTOR, FACTOR) && InRanges(b[..], FACTOR, FACTOR)
    requires forall k :: 0 <= k < 31 ==> t[k] == 0
    modifies t
    ensures Eval(t[..]) == Eval(a[..]) * Eval(b[..])
    ensures forall k :: 0 <= k < 31 ==> -0x100_0000_0000_0000 <= t[k] <= 0x100_0000_0000_0000
  {
    ghost var x, y := a[..], b[..];
    AllZero(t[..]);
    RowBegins(x, y, 0);
    hide Partial;
    assert x[..0] == [] && Eval(x[..0]) == 0;
    for i := 0 to 16
      invariant a[..] == x && b[..] == y
      invariant Eval(t[..]) == Eval(x[..i]) * Eval(y)
      invariant forall k :: 0 <= k < 31 ==> -0x10_0000_0000_0000 * i <= t[k] <= 0x10_0000_0000_0000 * i
    {
      hide Eval;
      RowBegins(x, y, i);
      AddRow(t, a, b, i);
      RowComplete(x, y, i);
    }
    assert x[..16] == x;
  }

  lemma {:induction false} AllZero(s: seq<int>)
    requires forall k :: 0 <= k < |s| ==> s[k] == 0
    ensures Eval(s) == 0
  {
    if s != [] {
      AllZero(s[1..]);
    }
  }

  /** The upper limbs brought down times 38. */
  method Reduce(t: array<i64>)
    requires t.Length == 31
    requires forall k :: 0 <= k < 31 ==> -0x100_0000_0000_0000 <= t[k] <= 0x100_0000_0000_0000
    modifies t
    ensures Same(Eval(t[..16]), old(Eval(t[..]))) && InRanges(t[..16], SUMS, SUMS)
  {
    hide Eval, Same;
    ghost var s := t[..];
    ghost var hi := s[16..];
    NoneYet(hi);
    for i := 0 to 15
      invariant forall k :: i <= k < 31 ==> t[k] == s[k]
      invariant forall k :: 0 <= k < i ==> t[k] == s[k] + 38 * s[k + 16]
      invariant Eval(t[..16]) == Eval(s[..16]) + 38 * Eval(hi[..i])
    {
      ghost var u := t[..16];
      EvalUpdate(u, i, u[i] + 38 * t[i + 16]);
      EvalOfOneMore(hi, i);
      Thirty8(PowR(i), hi[i]);
      t[i] := t[i] + 38 * t[i + 16];
      assert t[..16] == u[i := u[i] + 38 * hi[i]];
    }
    forall k | 0 <= k < 16
      ensures In(t[..16][k], SUMS)
    {
      assert k < 15 ==> t[k] == s[k] + 38 * s[k + 16];
      assert k == 15 ==> t[k] == s[k];
    }
    assert hi[..15] == hi && s == s[..16] + hi;
    EvalJoined(s[..16], hi);
    PowR16();
    TopHalf(Eval(t[..16]), Eval(s[..16]), Eval(s), Eval(hi), PowR(16));
    ghost var h := Eval(hi);
    Multiples(Eval(t[..16]), 2 * h);
    SameFlip(Eval(s), Eval(t[..16]));
  }

  lemma NoneYet(s: seq<int>)
    ensures Eval(s[..0]) == 0
  {
  }

  lemma Thirty8(p: int, d: int)
    ensures 38 * d * p == 38 * (p * d)
  {
  }

  lemma SameFlip(a: int, b: int)
    requires Same(a, b)
    ensures Same(b, a)
  {
  }

  lemma TopHalf(x: int, lo: int, all: int, hi: int, p: int)
    requires p == 2 * P + 38 && x == lo + 38 * hi && all == lo + p * hi
    ensures all == x + 2 * hi * P
  {
  }

  /** `multmod`. The result may be one of the factors. */
  method Multmod(o: array<i64>, a: array<i64>, b: array<i64>)
    requires o.Length == 16 && a.Length == 16 && b.Length == 16
    requires InRanges(a[..], FACTOR, FACTOR) && InRanges(b[..], FACTOR, FACTOR)
    modifies o
    ensures Same(Eval(o[..]), old(Eval(a[..]) * Eval(b[..]))) && Tidy(o[..])
  {
    hide Eval, Same;
    ghost var product := Eval(a[..]) * Eval(b[..]);
    var t := new i64[31](_ => 0);
    Convolve(t, a, b);
    Reduce(t);
    ghost var low := t[..16];
    for k := 0 to 16
      invariant o[..k] == low[..k] && t[..16] == low
    {
      o[k] := t[k];
    }
    assert o[..] == low;
    CarryTwice(o);
    SameChain(Eval(o[..]), Eval(low), product);
  }

  // ---------------------------------------------------------------- the unique representative

  ghost predicate Digits(s: seq<int>) {
    forall k :: 0 <= k < |s| ==> In(s[k], DIGIT)
  }

  lemma {:induction false} DigitsBelow(s: seq<int>)
    requires Digits(s)
    ensures 0 <= Eval(s) < PowR(|s|)
  {
    if s != [] {
      assert forall k :: 0 <= k < |s[1..]| ==> s[1..][k] == s[k + 1];
      DigitsBelow(s[1..]);
    }
  }

  /** Digits above the lowest limb add a multiple of R, of limited size. */
  lemma LowestLimb(s: seq<int>)
    requires |s| == 16 && forall k :: 1 <= k < 16 ==> In(s[k], DIGIT)
    ensures s[0] <= Eval(s) <= s[0] + 2 * P + 38 - R
  {
    var t := s[1..];
    assert forall k :: 0 <= k < 15 ==> t[k] == s[k + 1];
    DigitsBelow(t);
    PowR16();
    Powers(15);
    assert Eval(s) == s[0] + R * Eval(t);
    hide Eval, PowR;
  }

  lemma {:induction false} CarryOutOfTidy(i: nat)
    ensures var c := CarryOut(NEARLY, DIGIT, i); -1 <= c.lo && c.hi <= 1
  {
    if i > 0 {
      CarryOutOfTidy(i - 1);
    }
  }

  lemma ThirdPassFits()
    ensures PassFits(NEARLY, DIGIT)
  {
    hide CarryOut;
    CarryOutOfTidy(15);
    forall i | 0 <= i < 16
      ensures FitsWord(Arrived(NEARLY, DIGIT, i))
    {
      if i > 0 {
        CarryOutOfTidy(i - 1);
      }
    }
  }

  /** A third pass leaves digits only: something is carried round only when the number was so close to
      0 or to 2^256 that the bottom limb has room for it. */
  lemma ThirdPassLeavesDigits(before: seq<int>, after: seq<int>, c: int)
    requires Tidy(before) && |after| == 16 && (forall k :: 1 <= k < 16 ==> In(after[k], DIGIT))
    requires In(after[0] - 38 * c, DIGIT) && -1 <= c <= 1
    requires Eval(before) == Eval(after) + 2 * c * P
    ensures Digits(after)
  {
    hide Eval;
    LowestLimb(before);
    LowestLimb(after);
  }

  /** Three passes, as `pack` begins. */
  method CarryThrice(o: array<i64>)
    requires o.Length == 16 && InRanges(o[..], SUMS, SUMS)
    modifies o
    ensures Same(Eval(o[..]), old(Eval(o[..]))) && Digits(o[..])
  {
    hide Eval, Same, PassFits, Bottom, CarryOut, Digits;
    ghost var e := Eval(o[..]);
    CarryTwice(o);
    ThirdPassFits();
    ghost var s := o[..];
    CarryOutOfTidy(15);
    ghost var c := Carry(o, NEARLY, DIGIT);
    ThirdPassLeavesDigits(s, o[..], c);
    Multiples(Eval(o[..]), 2 * c);
    SameFlip(Eval(s), Eval(o[..]));
    SameChain(Eval(o[..]), Eval(s), e);
  }

  /** The modulus in limbs. */
  function PLimb(i: nat): int {
    if i == 0 then 0xffed else if i < 15 then 0xffff else 0x7fff
  }

  function PLimbs(n: nat): seq<int> {
    seq(n, i requires 0 <= i < n => PLimb(i))
  }

  lemma {:induction false} MiddleLimbs(n: nat)
    requires 1 <= n <= 15
    ensures Eval(PLimbs(n)) == PowR(n) - 19
  {
    Powers(n - 1);
    EvalOfOneMore(PLimbs(n), n - 1);
    assert PLimbs(n)[..n - 1] == PLimbs(n - 1) && PLimbs(n)[..n] == PLimbs(n);
    if n > 1 {
      MiddleLimbs(n - 1);
      assert PLimbs(n)[n - 1] == 0xffff;
    } else {
      assert PLimbs(0) == [] && PLimbs(1)[0] == 0xffed;
    }
  }

  lemma PLimbsAreP()
    ensures Eval(PLimbs(16)) == P
  {
    MiddleLimbs(15);
    EvalOfOneMore(PLimbs(16), 15);
    assert PLimbs(16)[..15] == PLimbs(15) && PLimbs(16)[..16] == PLimbs(16) && PLimbs(16)[15] == 0x7fff;
    PowR16();
    Powers(15);
    hide Eval, PowR;
  }

  /** One turn of the subtraction: a limb is borrowed from by the one below and reduced to a digit. */
  lemma BorrowStep(t: seq<int>, m: seq<int>, i: nat, borrow: int)
    requires |t| == 16 && |m| == 16 && i < 16 && (borrow == 0 || borrow == 1)
    requires Eval(m[..i]) == Eval(t[..i]) - Eval(PLimbs(i)) + borrow * PowR(i)
    requires m[i] == t[i] - PLimb(i) - borrow
    ensures Eval(m[..i + 1]) == Eval(t[..i + 1]) - Eval(PLimbs(i + 1))
  {
    EvalOfOneMore(m, i);
    EvalOfOneMore(t, i);
    EvalOfOneMore(PLimbs(i + 1), i);
    assert PLimbs(i + 1)[..i] == PLimbs(i) && PLimbs(i + 1)[..i + 1] == PLimbs(i + 1);
    BorrowIdentity(PowR(i), m[i], t[i], PLimb(i), borrow);
  }

  lemma BorrowIdentity(p: int, m: int, t: int, l: int, b: int)
    requires m == t - l - b
    ensures p * m == p * t - p * l - b * p
  {
  }

  // ---------------------------------------------------------------- the conditional swap

  /** A number as a word in two's complement, ... */
  function Pattern(x: i64): nat {
    x % U64_LIMIT
  }

  /** ... and back. */
  function Number(w: nat): i64
    requires w < U64_LIMIT
  {
    if w < I64 then w else w - U64_LIMIT
  }

  lemma PatternOfNumber(w: nat)
    requires w < U64_LIMIT
    ensures Pattern(Number(w)) == w
  {
  }

  lemma NumberOfPattern(x: i64)
    ensures Number(Pattern(x)) == x
  {
  }

  function XorOf(x: i64, y: i64): (r: i64)
    ensures Pattern(r) == Xor(Pattern(x), Pattern(y))
  {
    Pow2Of64();
    XorFits(Pattern(x), Pattern(y), 64);
    PatternOfNumber(Xor(Pattern(x), Pattern(y)));
    Number(Xor(Pattern(x), Pattern(y)))
  }

  function AndOf(x: i64, y: i64): (r: i64)
    ensures Pattern(r) == And(Pattern(x), Pattern(y))
  {
    Pow2Of64();
    AndFits(Pattern(x), Pattern(y), 64);
    PatternOfNumber(And(Pattern(x), Pattern(y)));
    Number(And(Pattern(x), Pattern(y)))
  }

  /** `~x`. */
  function Not(x: i64): i64 {
    -1 - x
  }

  /** Without a branch, two words are exchanged for b = 1 and kept for b = 0. */
  lemma Exchange(b: int, x: i64, y: i64)
    requires 0 <= b <= 1
    ensures var t := AndOf(Not(b - 1), XorOf(x, y));
            XorOf(x, t) == (if b == 1 then y else x) && XorOf(y, t) == (if b == 1 then x else y)
  {
    hide Xor, And, Pow2, XorOf, AndOf, Number;
    var u, v := Pattern(x), Pattern(y);
    var d := XorOf(x, y);
    var t := AndOf(Not(b - 1), d);
    MaskedDifference(b, d);
    XorCommutes(u, v);
    XorCancels(u, v);
    XorCancels(v, u);
    XorCommutes(u, Xor(u, v));
    XorCommutes(v, Xor(u, v));
    XorZero(u);
    XorZero(v);
    NumberOfPattern(x);
    NumberOfPattern(y);
    NumberOfPattern(XorOf(x, t));
    NumberOfPattern(XorOf(y, t));
  }

  lemma MaskedDifference(b: int, d: i64)
    requires 0 <= b <= 1
    ensures Pattern(AndOf(Not(b - 1), d)) == if b == 1 then Pattern(d) else 0
  {
    hide And, Pow2, AndOf;
    Pow2Of64();
    if b == 1 {
      AndOnes(Pattern(d), 64);
    } else {
      NoneMasked(Pattern(d));
    }
  }

  lemma NoneMasked(d: nat)
    ensures And(0, d) == 0
  {
  }

  /** `cswap`. */
  method CSwap(p: array<i64>, q: array<i64>, b: i64)
    requires p.Length == 16 && q.Length == 16 && p != q && 0 <= b <= 1
    modifies p, q
    ensures if b == 1 then p[..] == old(q[..]) && q[..] == old(p[..]) else p[..] == old(p[..]) && q[..] == old(q[..])
  {
    hide XorOf, AndOf, Not;
    ghost var x, y := p[..], q[..];
    var c := Not(b - 1);
    for i := 0 to 16
      invariant forall k :: 0 <= k < i ==> p[k] == if b == 1 then y[k] else x[k]
      invariant forall k :: 0 <= k < i ==> q[k] == if b == 1 then x[k] else y[k]
      invariant forall k :: i <= k < 16 ==> p[k] == x[k] && q[k] == y[k]
    {
      var t := AndOf(c, XorOf(p[i], q[i]));
      Exchange(b, p[i], q[i]);
      p[i] := XorOf(p[i], t);
      q[i] := XorOf(q[i], t);
    }
  }

  /** A limb after its own borrow, as a digit. */
  lemma MaskStep(m: seq<int>, i: nat, digit: int, borrow: int)
    requires i < |m| && m[i] == digit - R * borrow
    ensures Eval(m[i := digit][..i + 1]) == Eval(m[..i + 1]) + borrow * PowR(i + 1)
  {
    var d := m[i := digit];
    EvalOfOneMore(m, i);
    EvalOfOneMore(d, i);
    assert d[..i] == m[..i];
    Powers(i);
    MaskIdentity(PowR(i), PowR(i + 1), m[i], digit, borrow);
  }

  lemma MaskIdentity(p: int, q: int, m: int, d: int, b: int)
    requires q == R * p && m == d - R * b
    ensures p * d == p * m + b * q
  {
  }

  lemma BorrowOf(x: int)
    requires -R <= x < R
    ensures x / R % 2 == (if x < 0 then 1 else 0) && x == x % R - R * (x / R % 2)
  {
  }

  /** The subtraction of the modulus; b says that there was not enough to subtract from. */
  method SubtractP(m: array<i64>, t: array<i64>) returns (b: int)
    requires m.Length == 16 && t.Length == 16 && m != t && Digits(t[..])
    modifies m
    ensures b == if Eval(t[..]) < P then 1 else 0
    ensures b == 0 ==> Digits(m[..]) && Eval(m[..]) == Eval(t[..]) - P
  {
    hide Eval, PowR;
    ghost var s := t[..];
    m[0] := t[0] - 0xffed;
    FirstBorrow(s, m[..]);
    for i := 1 to 16
      invariant t[..] == s
      invariant forall k :: 0 <= k < i - 1 ==> In(m[k], DIGIT)
      invariant -R <= m[i - 1] < R
      invariant Eval(m[..][..i]) == Eval(s[..i]) - Eval(PLimbs(i))
    {
      assert In(t[..][i], DIGIT);
      BorrowOf(m[i - 1]);
      ghost var before := m[..];
      var borrow := m[i - 1] / R % 2;
      m[i] := t[i] - (if i < 15 then 0xffff else 0x7fff) - borrow;
      ghost var middle := m[..];
      m[i - 1] := m[i - 1] % R;
      assert middle[..i] == before[..i];
      MaskStep(middle, i - 1, m[i - 1], borrow);
      assert m[..] == middle[i - 1 := m[i - 1]];
      BorrowStep(s, m[..], i, borrow);
    }
    BorrowOf(m[15]);
    b := m[15] / R % 2;
    PLimbsAreP();
    assert m[..][..16] == m[..] && s[..16] == s;
    TopDecides(m[..]);
  }

  lemma FirstBorrow(t: seq<int>, m: seq<int>)
    requires |t| == 16 && |m| == 16 && m[0] == t[0] - 0xffed
    ensures Eval(m[..1]) == Eval(t[..1]) - Eval(PLimbs(1))
  {
    EvalOfOneMore(t, 0);
    EvalOfOneMore(m, 0);
    MiddleLimbs(1);
    Powers(0);
  }

  /** The sign of the top limb is the sign of the number. */
  lemma TopDecides(m: seq<int>)
    requires |m| == 16 && (forall k :: 0 <= k < 15 ==> In(m[k], DIGIT)) && -R <= m[15] < R
    ensures Eval(m) < 0 <==> m[15] < 0
    ensures m[15] >= 0 ==> Digits(m)
  {
    EvalOfOneMore(m, 15);
    assert m[..16] == m;
    DigitsBelow(m[..15]);
    TopSign(PowR(15), m[15], Eval(m[..15]));
  }

  lemma TopSign(p: int, top: int, low: int)
    requires 0 <= low < p
    ensures low + p * top < 0 <==> top < 0
  {
    if top < 0 {
      assert p * top <= p * -1;
    } else {
      assert p * top >= 0;
    }
  }

  /** One round of `pack`: the modulus is subtracted where that is possible. */
  method SubtractWherePossible(t: array<i64>)
    requires t.Length == 16 && Digits(t[..])
    modifies t
    ensures Digits(t[..])
    ensures Eval(t[..]) == old(Eval(t[..])) - if old(Eval(t[..])) < P then 0 else P
  {
    hide Eval, Digits;
    var m := new i64[16](_ => 0);
    var b := SubtractP(m, t);
    CSwap(t, m, 1 - b);
  }

  /** `pack`: the number from 0 to P - 1 that the limbs stand for, in 32 bytes, lowest first. */
  method Pack(o: array<byte>, n: array<i64>)
    requires o.Length == 32 && n.Length == 16 && InRanges(n[..], SUMS, SUMS)
    modifies o
    ensures FromLittleEndian(o[..]) == Eval(n[..]) % P
  {
    hide Eval, Same, Digits, PowR, FromLittleEndian;
    ghost var x := Eval(n[..]);
    var t := new i64[16](i requires 0 <= i < 16 reads n => n[i]);
    assert t[..] == n[..];
    CarryThrice(t);
    ghost var v := Eval(t[..]);
    DigitsBelow(t[..]);
    PowR16();
    SubtractWherePossible(t);
    SubtractWherePossible(t);
    ghost var s := t[..];
    TwiceIsEnough(v, Eval(s), x);
    DigitsAt(s);
    for i := 0 to 16
      invariant t[..] == s
      invariant forall k :: 0 <= k < i ==> o[2 * k] == s[k] % 256 && o[2 * k + 1] == s[k] / 256
    {
      assert t[i] == s[i];
      o[2 * i] := t[i] % 256;
      o[2 * i + 1] := t[i] / 256;
    }
    BytesOfDigits(o[..], s);
  }

  lemma DigitsAt(s: seq<int>)
    requires Digits(s)
    ensures forall k :: 0 <= k < |s| ==> 0 <= s[k] < R
  {
  }

  lemma TwiceIsEnough(v: int, w: int, x: int)
    requires Same(v, x) && 0 <= v < 2 * P + 38
    requires w == (if v < P then v else if v - P < P then v - P else v - 2 * P)
    ensures w == x % P
  {
  }

  lemma {:induction false} BytesOfDigits(o: Bytes, s: seq<int>)
    requires |o| == 2 * |s|
    requires forall k :: 0 <= k < |s| ==> o[2 * k] == s[k] % 256 && o[2 * k + 1] == s[k] / 256
    ensures FromLittleEndian(o) == Eval(s)
  {
    if s != [] {
      var rest := o[2..];
      forall k | 0 <= k < |s[1..]|
        ensures rest[2 * k] == s[1..][k] % 256 && rest[2 * k + 1] == s[1..][k] / 256
      {
        assert rest[2 * k] == o[2 * (k + 1)];
      }
      BytesOfDigits(rest, s[1..]);
      assert o[1..][1..] == rest && o[1..][0] == o[1];
      assert o[0] == s[0] % 256 && o[1] == s[0] / 256;
      assert s[0] == s[0] % 256 + 256 * (s[0] / 256);
    }
  }

  // ---------------------------------------------------------------- inversion

  lemma TidyIsFactor(s: seq<int>)
    requires Tidy(s)
    ensures InRanges(s, FACTOR, FACTOR)
  {
  }

  /** The exponent reached when bits 253 to a + 1 have been done: all ones, but for bits 2 and 4. */
  function Exponent(a: int): int
    requires -1 <= a <= 253
  {
    Pow2(254 - a) - (if a >= 4 then 1 else if a == 3 then 2 else if a == 2 then 3 else if a == 1 then 6
                     else if a == 0 then 11 else 21)
  }

  lemma NextExponent(a: int)
    requires 0 <= a <= 253
    ensures Exponent(a) >= 1
    ensures Exponent(a - 1) == 2 * Exponent(a) + if a != 2 && a != 4 then 1 else 0
  {
    Pow2Least(254 - a);
  }

  lemma {:induction false} Pow2Least(n: nat)
    ensures Pow2(n) >= n + 1
  {
    if n > 0 {
      Pow2Least(n - 1);
    }
  }

  lemma LastExponent()
    ensures Exponent(-1) == P - 2 && Exponent(253) == 1
  {
    SmallPowers();
    hide Pow2;
    Pow2Sum(15, 16);
    Pow2Sum(16, 16);
    Pow2Sum(32, 32);
    Pow2Sum(64, 64);
    Pow2Sum(31, 32);
    Pow2Sum(63, 64);
    Pow2Sum(127, 128);
  }

  lemma SmallPowers()
    ensures Pow2(1) == 2 && Pow2(15) == 0x8000 && Pow2(16) == 0x1_0000
  {
  }

  /** `invert`: the same power as the chain of the five-limb code, 2^255 - 21. */
  method Invert(o: array<i64>, i: array<i64>)
    requires o.Length == 16 && i.Length == 16 && InRanges(i[..], FACTOR, FACTOR)
    modifies o
    ensures IsPower(Eval(o[..]), old(Eval(i[..])), P - 2)
    ensures InRanges(o[..], FACTOR, FACTOR)
  {
    hide Eval, Same, IsPower, Tidy, Exponent;
    ghost var z := Eval(i[..]);
    ghost var s := i[..];
    var c := new i64[16](k requires 0 <= k < 16 reads i => i[k]);
    assert c[..] == s;
    FirstPower(z);
    LastExponent();
    var a := 253;
    while a >= 0
      invariant -1 <= a <= 253 && i[..] == s && Eval(s) == z
      invariant InRanges(c[..], FACTOR, FACTOR) && Exponent(a) >= 1 && IsPower(Eval(c[..]), z, Exponent(a))
    {
      NextExponent(a);
      ghost var e := Exponent(a);
      Square(c, z, e);
      if a != 2 && a != 4 {
        ghost var x := Eval(c[..]);
        Multmod(c, c, i);
        ProductOfPowers(Eval(c[..]), x, z, z, e + e, 1);
        TidyIsFactor(c[..]);
      }
      a := a - 1;
    }
    for k := 0 to 16
      invariant o[..k] == c[..k] && c != o
      invariant InRanges(c[..], FACTOR, FACTOR) && IsPower(Eval(c[..]), z, P - 2)
    {
      o[k] := c[k];
    }
    assert o[..] == c[..];
  }

  method Square(c: array<i64>, ghost z: int, ghost e: nat)
    requires c.Length == 16 && InRanges(c[..], FACTOR, FACTOR) && IsPower(Eval(c[..]), z, e)
    modifies c
    ensures InRanges(c[..], FACTOR, FACTOR) && IsPower(Eval(c[..]), z, e + e)
  {
    hide Eval, Same, IsPower, Tidy;
    ghost var x := Eval(c[..]);
    Multmod(c, c, c);
    ProductOfPowers(Eval(c[..]), x, x, z, e, e);
    TidyIsFactor(c[..]);
  }
}
