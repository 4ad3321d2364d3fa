/**
 Keys as text, in constant time: no branch and no table lookup depends on the key. A C `int` is a
 32-bit pattern, a byte one of its values below 256; `Sar8` is the shift of a signed `int` by 8.
 A `char` is signed on some machines and not on others, so what is proved of a character is proved of
 both ways to widen it.
 */
module Encoding {

  type octet = b: bv32 | b < 0x100

  const KEY_LEN := 32

  function Sar8(x: bv32): bv32 {
    (x >> 8) | (if x >= 0x8000_0000 then 0xff00_0000 else 0)
  }

  function Widen(c: octet, signed: bool): bv32 {
    if signed && c >= 0x80 then c | 0xffff_ff00 else c
  }

  // ---------------------------------------------------------------- the base64 alphabet

  function Letter(v: bv32): octet
    requires v < 64
  {
    if v < 26 then 65 + v else if v < 52 then 97 + (v - 26) else if v < 62 then 48 + (v - 52)
    else if v == 62 then 43 else 47
  }

  predicate InAlphabet(c: bv32) {
    65 <= c <= 90 || 97 <= c <= 122 || 48 <= c <= 57 || c == 43 || c == 47
  }

  function Value(c: bv32): (v: bv32)
    requires InAlphabet(c)
    ensures v < 64
  {
    if 65 <= c <= 90 then c - 65 else if 97 <= c <= 122 then c - 97 + 26 else if 48 <= c <= 57 then c - 48 + 52
    else if c == 43 then 62 else 63
  }

  lemma LetterOfValue(c: octet)
    requires InAlphabet(c)
    ensures Letter(Value(c)) == c
  {
  }

  lemma ValueOfLetter(v: bv32)
    requires v < 64
    ensures InAlphabet(Letter(v)) && Value(Letter(v)) == v
  {
  }

  /** The formula of `encode_base64`. */
  function EncodeChar(v: bv32): bv32 {
    v + 65 + (Sar8(25 - v) & 6) - (Sar8(51 - v) & 75) - (Sar8(61 - v) & 15) + (Sar8(62 - v) & 3)
  }

  /** The formula of `decode_base64` for one character. */
  function DecodeChar(c: bv32): bv32 {
    Masked(c, Between(c, 64, 91), Between(c, 96, 123), Between(c, 47, 58), Between(c, 42, 44), Between(c, 46, 48))
  }

  /** The masks by which its terms are selected, ... */
  function Between(c: bv32, low: bv32, high: bv32): bv32 {
    Sar8((low - c) & (c - high))
  }

  /** ... and the sum of the terms. */
  function Masked(c: bv32, upper: bv32, lower: bv32, digit: bv32, plus: bv32, slash: bv32): bv32 {
    0xffff_ffff + (upper & (c - 64)) + (lower & (c - 70)) + (digit & (c + 5)) + (plus & 63) + (slash & 64)
  }

  lemma EncodeCharIsTable(v: bv32)
    requires v < 64
    ensures EncodeChar(v) == Letter(v)
  {
    MaskAbove(v, 25);
    MaskAbove(v, 51);
    MaskAbove(v, 61);
    MaskAbove(v, 62);
    hide Sar8;
  }

  /** A mask of ones where v is above a bound, of zeros elsewhere. */
  lemma MaskAbove(v: bv32, bound: bv32)
    requires v < 64 && bound < 64
    ensures Sar8(bound - v) == if v > bound then 0xffff_ffff else 0
  {
  }

  /** A mask of ones where a character lies between two bounds, of zeros elsewhere. */
  lemma MaskBetween(c: octet, signed: bool, low: bv32, high: bv32)
    requires low < high < 0x80
    ensures Between(Widen(c, signed), low, high) == Mask(low < c < high)
  {
  }

  lemma DecodeCharIsTable(c: octet, signed: bool)
    ensures DecodeChar(Widen(c, signed)) == if InAlphabet(c) then Value(c) else 0xffff_ffff
  {
    MaskBetween(c, signed, 64, 91);
    MaskBetween(c, signed, 96, 123);
    MaskBetween(c, signed, 47, 58);
    MaskBetween(c, signed, 42, 44);
    MaskBetween(c, signed, 46, 48);
    WidenKeepsAscii(c, signed);
    hide Between, Masked, Mask, Widen, InAlphabet, Value;
    Decoded(c, Widen(c, signed));
  }

  lemma WidenKeepsAscii(c: octet, signed: bool)
    ensures c < 0x80 ==> Widen(c, signed) == c
  {
  }

  function Mask(b: bool): bv32 {
    if b then 0xffff_ffff else 0
  }

  lemma Decoded(c: octet, w: bv32)
    requires c < 0x80 ==> w == c
    ensures Masked(w, Mask(64 < c < 91), Mask(96 < c < 123), Mask(47 < c < 58), Mask(42 < c < 44), Mask(46 < c < 48))
            == if InAlphabet(c) then Value(c) else 0xffff_ffff
  {
  }

  // ---------------------------------------------------------------- four characters for three bytes

  /** The six-bit groups of three bytes, as `encode_base64` cuts them. */
  function Group(b0: octet, b1: octet, b2: octet, i: nat): bv32
    requires i < 4
  {
    if i == 0 then (b0 >> 2) & 63
    else if i == 1 then ((b0 << 4) | (b1 >> 4)) & 63
    else if i == 2 then ((b1 << 2) | (b2 >> 6)) & 63
    else b2 & 63
  }

  function Join(u0: bv32, u1: bv32, u2: bv32, u3: bv32): bv32 {
    (u0 << 18) | (u1 << 12) | (u2 << 6) | u3
  }

  function Byte2(v: bv32): octet {
    (v >> 16) & 0xff
  }

  function Byte1(v: bv32): octet {
    (v >> 8) & 0xff
  }

  function Byte0(v: bv32): octet {
    v & 0xff
  }

  predicate Six(u: bv32) {
    u < 64 || u == 0xffff_ffff
  }

  lemma GroupsAreSix(b0: octet, b1: octet, b2: octet, i: nat)
    requires i < 4
    ensures Group(b0, b1, b2, i) < 64
  {
  }

  /** The sign of the joined number says whether any of the four was no character of the alphabet. */
  lemma SignOfJoin(u0: bv32, u1: bv32, u2: bv32, u3: bv32)
    requires Six(u0) && Six(u1) && Six(u2) && Six(u3)
    ensures Join(u0, u1, u2, u3) >> 31 == if u0 < 64 && u1 < 64 && u2 < 64 && u3 < 64 then 0 else 1
  {
  }

  lemma JoinOfGroups(b0: octet, b1: octet, b2: octet)
    ensures var v := Join(Group(b0, b1, b2, 0), Group(b0, b1, b2, 1), Group(b0, b1, b2, 2), Group(b0, b1, b2, 3));
            Byte2(v) == b0 && Byte1(v) == b1 && Byte0(v) == b2
  {
  }

  lemma GroupsOfJoin(u0: bv32, u1: bv32, u2: bv32, u3: bv32)
    requires u0 < 64 && u1 < 64 && u2 < 64 && u3 < 64
    ensures var v := Join(u0, u1, u2, u3);
            var b0, b1, b2 := Byte2(v), Byte1(v), Byte0(v);
            && Group(b0, b1, b2, 0) == u0 && Group(b0, b1, b2, 1) == u1
            && Group(b0, b1, b2, 2) == u2 && Group(b0, b1, b2, 3) == u3
  {
  }

  /** Reducing an `int` to a `char`. */
  function Char(x: bv32): octet {
    x & 0xff
  }

  lemma CharOfLetter(v: bv32)
    requires v < 64
    ensures Char(EncodeChar(v)) == Letter(v)
  {
    EncodeCharIsTable(v);
  }

  /** What `encode_base64` writes for three bytes. */
  function Block(b0: octet, b1: octet, b2: octet): (s: seq<octet>)
    ensures |s| == 4
  {
    seq(4, i requires 0 <= i < 4 => Char(EncodeChar(Group(b0, b1, b2, i))))
  }

  /** What `decode_base64` returns for four characters. */
  function DecodeBlock(s: seq<octet>, signed: bool): bv32
    requires |s| == 4
  {
    Join(DecodeChar(Widen(s[0], signed)), DecodeChar(Widen(s[1], signed)),
         DecodeChar(Widen(s[2], signed)), DecodeChar(Widen(s[3], signed)))
  }

  /** A block is taken exactly when it is one that some three bytes are written as, and then for these. */
  lemma DecodeOfBlock(b0: octet, b1: octet, b2: octet, signed: bool)
    ensures var v := DecodeBlock(Block(b0, b1, b2), signed);
            v >> 31 == 0 && Byte2(v) == b0 && Byte1(v) == b1 && Byte0(v) == b2
  {
    hide Group, EncodeChar, DecodeChar, Widen, Join, Char, Letter, Value, InAlphabet, Byte0, Byte1, Byte2;
    var s := Block(b0, b1, b2);
    forall i | 0 <= i < 4
      ensures DecodeChar(Widen(s[i], signed)) == Group(b0, b1, b2, i) && Group(b0, b1, b2, i) < 64
    {
      var v := Group(b0, b1, b2, i);
      GroupsAreSix(b0, b1, b2, i);
      CharOfLetter(v);
      ValueOfLetter(v);
      DecodeCharIsTable(s[i], signed);
    }
    SignOfJoin(Group(b0, b1, b2, 0), Group(b0, b1, b2, 1), Group(b0, b1, b2, 2), Group(b0, b1, b2, 3));
    JoinOfGroups(b0, b1, b2);
  }

  lemma BlockOfDecode(s: seq<octet>, signed: bool)
    requires |s| == 4
    ensures var v := DecodeBlock(s, signed);
            && (v >> 31 == 0 || v >> 31 == 1)
            && (v >> 31 == 0 ==> Block(Byte2(v), Byte1(v), Byte0(v)) == s)
  {
    hide Group, EncodeChar, DecodeChar, Widen, Join, Char, Letter, Value, InAlphabet, Byte0, Byte1, Byte2;
    DecodeCharIsTable(s[0], signed);
    DecodeCharIsTable(s[1], signed);
    DecodeCharIsTable(s[2], signed);
    DecodeCharIsTable(s[3], signed);
    var u0, u1, u2, u3 := DecodeChar(Widen(s[0], signed)), DecodeChar(Widen(s[1], signed)),
                          DecodeChar(Widen(s[2], signed)), DecodeChar(Widen(s[3], signed));
    SignOfJoin(u0, u1, u2, u3);
    var v := DecodeBlock(s, signed);
    if v >> 31 == 0 {
      GroupsOfJoin(u0, u1, u2, u3);
      var t := Block(Byte2(v), Byte1(v), Byte0(v));
      CharOfValue(s[0], u0);
      CharOfValue(s[1], u1);
      CharOfValue(s[2], u2);
      CharOfValue(s[3], u3);
      assert t == s;
    }
  }

  lemma CharOfValue(c: octet, u: bv32)
    requires InAlphabet(c) && u == Value(c)
    ensures Char(EncodeChar(u)) == c
  {
    hide EncodeChar, Char, Letter;
    CharOfLetter(u);
    LetterOfValue(c);
  }

  // ---------------------------------------------------------------- whole keys in base64

  type Key = k: seq<octet> | |k| == KEY_LEN witness seq(KEY_LEN, _ => 0)

  function BlockOf(key: seq<octet>, i: nat): (s: seq<octet>)
    requires 3 * i + 3 <= |key|
    ensures |s| == 4
  {
    Block(key[3 * i], key[3 * i + 1], key[3 * i + 2])
  }

  function Blocks(key: seq<octet>, n: nat): (s: seq<octet>)
    requires 3 * n <= |key|
    ensures |s| == 4 * n
  {
    if n == 0 then [] else Blocks(key, n - 1) + BlockOf(key, n - 1)
  }

  function LastBlock(key: Key): (s: seq<octet>)
    ensures |s| == 4
  {
    Block(key[30], key[31], 0)
  }

  /** A key in base64, with one padding character. */
  function ToBase64(key: Key): (s: seq<octet>)
    ensures |s| == 44
  {
    Blocks(key, 10) + LastBlock(key)[..3] + [61]
  }

  lemma {:induction false} BlocksAt(key: seq<octet>, n: nat, i: nat)
    requires 3 * n <= |key| && i < n
    ensures Blocks(key, n)[4 * i..4 * i + 4] == BlockOf(key, i)
  {
    hide Block;
    if i < n - 1 {
      BlocksAt(key, n - 1, i);
      assert Blocks(key, n)[4 * i..4 * i + 4] == Blocks(key, n - 1)[4 * i..4 * i + 4];
    }
  }

  lemma Base64At(key: Key, i: nat)
    requires i < 10
    ensures ToBase64(key)[4 * i..4 * i + 4] == BlockOf(key, i)
    ensures ToBase64(key)[40..43] == LastBlock(key)[..3] && ToBase64(key)[43] == 61
    ensures ToBase64(key)[..40] == Blocks(key, 10)
  {
    BlocksAt(key, 10, i);
    assert ToBase64(key)[4 * i..4 * i + 4] == Blocks(key, 10)[4 * i..4 * i + 4];
  }

  /** The last group of a key is padded with zero bits, and those are the letter A. */
  lemma LastLetter(key: Key)
    ensures LastBlock(key)[3] == 65
  {
    assert Group(key[30], key[31], 0, 3) == 0;
    assert Char(EncodeChar(0)) == 65;
  }

  /** What the last three characters are decoded as. */
  function Tail(base64: seq<octet>): seq<octet>
    requires |base64| == 44
  {
    base64[40..43] + [65]
  }

  /** A string that is some key in base64 passes every test of `key_from_base64`. */
  lemma EncodedPasses(key: Key, base64: seq<octet>, signed: bool, i: nat)
    requires base64 == ToBase64(key) && i < 10
    ensures DecodeBlock(base64[4 * i..4 * i + 4], signed) >> 31 == 0
  {
    hide Block, DecodeBlock;
    Base64At(key, i);
    DecodeOfBlock(key[3 * i], key[3 * i + 1], key[3 * i + 2], signed);
  }

  lemma EncodedTailPasses(key: Key, base64: seq<octet>, signed: bool)
    requires base64 == ToBase64(key)
    ensures var v := DecodeBlock(Tail(base64), signed); v >> 31 == 0 && Byte0(v) == 0
  {
    hide Block, DecodeBlock;
    LastLetter(key);
    assert Tail(base64) == LastBlock(key);
    DecodeOfBlock(key[30], key[31], 0, signed);
  }

  /** Different keys have different texts. */
  lemma Base64IsInjective(k: Key, l: Key)
    requires ToBase64(k) == ToBase64(l)
    ensures k == l
  {
    hide Block, DecodeBlock;
    forall i | 0 <= i < 10
      ensures k[3 * i] == l[3 * i] && k[3 * i + 1] == l[3 * i + 1] && k[3 * i + 2] == l[3 * i + 2]
    {
      Base64At(k, i);
      Base64At(l, i);
      DecodeOfBlock(k[3 * i], k[3 * i + 1], k[3 * i + 2], true);
      DecodeOfBlock(l[3 * i], l[3 * i + 1], l[3 * i + 2], true);
    }
    Base64At(k, 0);
    Base64At(l, 0);
    LastLetter(k);
    LastLetter(l);
    assert LastBlock(k) == LastBlock(l);
    DecodeOfBlock(k[30], k[31], 0, true);
    DecodeOfBlock(l[30], l[31], 0, true);
    forall j | 0 <= j < 30
      ensures k[j] == l[j]
    {
      var i := j / 3;
      assert j == 3 * i || j == 3 * i + 1 || j == 3 * i + 2;
    }
  }

  /** `encode_base64`. */
  method EncodeBase64(dest: array<octet>, at: nat, b0: octet, b1: octet, b2: octet)
    requires at + 4 <= dest.Length
    modifies dest
    ensures dest[..] == old(dest[..at]) + Block(b0, b1, b2) + old(dest[at + 4..])
  {
    hide Group, EncodeChar, Char;
    for i := 0 to 4
      invariant forall k :: 0 <= k < i ==> dest[at + k] == Char(EncodeChar(Group(b0, b1, b2, k)))
      invariant forall k :: 0 <= k < dest.Length && !(at <= k < at + i) ==> dest[k] == old(dest[k])
    {
      dest[at + i] := Char(EncodeChar(Group(b0, b1, b2, i)));
    }
  }

  /** `key_to_base64`: the text and its terminating zero. */
  method KeyToBase64(base64: array<octet>, key: Key)
    requires base64.Length == 45
    modifies base64
    ensures base64[..] == ToBase64(key) + [0]
  {
    hide Block;
    var i := 0;
    while i < 10
      invariant 0 <= i <= 10 && base64[..4 * i] == Blocks(key, i)
    {
      ghost var before := base64[..4 * i];
      EncodeBase64(base64, i * 4, key[i * 3], key[i * 3 + 1], key[i * 3 + 2]);
      assert base64[..4 * (i + 1)] == before + BlockOf(key, i);
      i := i + 1;
    }
    EncodeBase64(base64, i * 4, key[i * 3], key[i * 3 + 1], 0);
    assert base64[..44] == Blocks(key, 10) + LastBlock(key);
    base64[43] := 61;
    base64[44] := 0;
    assert base64[..43] == Blocks(key, 10) + LastBlock(key)[..3];
  }

  function Or(x: octet, y: octet): octet {
    x | y
  }

  lemma OrIsZero(x: octet, y: octet)
    ensures Or(x, y) == 0 <==> x == 0 && y == 0
  {
  }

  function Sign(v: bv32): octet {
    v >> 31
  }

  lemma Verdict(ret: octet)
    ensures (1 & Sar8(ret - 1)) == if ret == 0 then 1 else 0
  {
  }

  /** `key_from_base64` on a string without its terminating zero: it accepts exactly the strings that
      some key is written as, so neither stray characters nor stray bits after the last byte, and
      delivers that key. */
  method KeyFromBase64(key: array<octet>, base64: seq<octet>, signed: bool) returns (ok: bool)
    requires key.Length == KEY_LEN
    modifies key
    ensures ok <==> exists k: Key :: ToBase64(k) == base64
    ensures ok ==> ToBase64(key[..]) == base64
  {
    hide Block, DecodeBlock, Or, Byte0, Byte1, Byte2, Sign, Sar8, ToBase64, Blocks;
    if |base64| != 44 || base64[43] != 61 {
      NotPadded(base64);
      return false;
    }
    var ret: octet := 0;
    var i := 0;
    NoBlocks(key[..]);
    while i < 10
      invariant 0 <= i <= 10
      invariant ret == 0 ==> Blocks(key[..], i) == base64[..4 * i]
      invariant ret != 0 ==> !Encodable(base64)
    {
      var val := DecodeBlock(base64[i * 4..i * 4 + 4], signed);
      ghost var before := key[..];
      BlockPassesOrNot(base64, i, signed);
      BlockOfDecode(base64[i * 4..i * 4 + 4], signed);
      OrIsZero(ret, Sign(val));
      SignIs(val);
      ret := Or(ret, Sign(val));
      key[i * 3] := Byte2(val);
      key[i * 3 + 1] := Byte1(val);
      key[i * 3 + 2] := Byte0(val);
      if ret == 0 {
        OneMoreBlock(before, key[..], base64, i);
      }
      i := i + 1;
    }
    ghost var front := key[..];
    var val := DecodeBlock(Tail(base64), signed);
    TailPassesOrNot(base64, signed);
    BlockOfDecode(Tail(base64), signed);
    OrIsZero(Sign(val), Byte0(val));
    SignIs(val);
    OrIsZero(ret, Or(Sign(val), Byte0(val)));
    ret := Or(ret, Or(Sign(val), Byte0(val)));
    key[30] := Byte2(val);
    key[31] := Byte1(val);
    Verdict(ret);
    if ret == 0 {
      WholeKey(front, key[..], base64);
    }
    ok := (1 & Sar8(ret - 1)) != 0;
  }

  ghost predicate Encodable(base64: seq<octet>) {
    exists k: Key :: ToBase64(k) == base64
  }

  lemma SignIs(v: bv32)
    ensures Sign(v) == 0 <==> v >> 31 == 0
  {
  }

  lemma NotPadded(base64: seq<octet>)
    requires |base64| != 44 || base64[43] != 61
    ensures !Encodable(base64)
  {
  }

  lemma NoBlocks(key: seq<octet>)
    ensures Blocks(key, 0) == []
  {
  }

  lemma BlockPassesOrNot(base64: seq<octet>, i: nat, signed: bool)
    requires |base64| == 44 && i < 10
    ensures DecodeBlock(base64[4 * i..4 * i + 4], signed) >> 31 != 0 ==> !Encodable(base64)
  {
    hide DecodeBlock, ToBase64;
    if Encodable(base64) {
      var k: Key :| ToBase64(k) == base64;
      EncodedPasses(k, base64, signed, i);
    }
  }

  lemma TailPassesOrNot(base64: seq<octet>, signed: bool)
    requires |base64| == 44
    ensures var v := DecodeBlock(Tail(base64), signed); v >> 31 != 0 || Byte0(v) != 0 ==> !Encodable(base64)
  {
    hide DecodeBlock, ToBase64, Byte0;
    if Encodable(base64) {
      var k: Key :| ToBase64(k) == base64;
      EncodedTailPasses(k, base64, signed);
    }
  }

  lemma {:induction false} SameBlocks(k: seq<octet>, l: seq<octet>, n: nat)
    requires |k| == |l| && 3 * n <= |k| && k[..3 * n] == l[..3 * n]
    ensures Blocks(k, n) == Blocks(l, n)
  {
    if n > 0 {
      forall j | 0 <= j < 3 * n
        ensures k[j] == l[j]
      {
        assert k[..3 * n][j] == l[..3 * n][j];
      }
      SameBlocks(k, l, n - 1);
    }
  }

  lemma OneMoreBlock(before: Key, key: Key, base64: seq<octet>, i: nat)
    requires |base64| == 44 && i < 10 && key[..3 * i] == before[..3 * i]
    requires Blocks(before, i) == base64[..4 * i] && BlockOf(key, i) == base64[4 * i..4 * i + 4]
    ensures Blocks(key, i + 1) == base64[..4 * (i + 1)]
  {
    hide Block;
    SameBlocks(key, before, i);
    assert base64[..4 * (i + 1)] == base64[..4 * i] + base64[4 * i..4 * i + 4];
  }

  lemma WholeKey(front: Key, key: Key, base64: seq<octet>)
    requires |base64| == 44 && base64[43] == 61 && key[..30] == front[..30]
    requires Blocks(front, 10) == base64[..40] && LastBlock(key) == Tail(base64)
    ensures ToBase64(key) == base64
  {
    hide Block;
    SameBlocks(key, front, 10);
    assert LastBlock(key)[..3] == base64[40..43];
    assert base64 == base64[..40] + base64[40..43] + [base64[43]];
  }

  // ---------------------------------------------------------------- hexadecimal

  predicate IsHex(c: octet) {
    48 <= c <= 57 || 65 <= c <= 70 || 97 <= c <= 102
  }

  function Digit(c: octet): (n: octet)
    requires IsHex(c)
    ensures n < 16
  {
    if c <= 57 then c - 48 else if c <= 70 then c - 65 + 10 else c - 97 + 10
  }

  function Lower(c: octet): octet {
    if 65 <= c <= 90 then c + 32 else c
  }

  /** The formula of `key_to_hex` for a half byte. */
  function HexChar(n: bv32): octet {
    (87 + n + (((n - 10) >> 8) & !38)) & 0xff
  }

  /** The formulas of `key_from_hex` for one character: first the two candidate values with the masks
      that say which is right, ... */
  function CNum(c: octet): octet {
    (c ^ 48) & 0xff
  }

  function CNum0(c: octet): octet {
    ((CNum(c) - 10) >> 8) & 0xff
  }

  function CAlpha(c: octet): octet {
    ((c & !32) - 55) & 0xff
  }

  function CAlpha0(c: octet): octet {
    (((CAlpha(c) - 10) ^ (CAlpha(c) - 16)) >> 8) & 0xff
  }

  /** ... then what is accumulated when neither is, and the value. */
  function CBad(c: octet): octet {
    Sar8((CNum0(c) | CAlpha0(c)) - 1) & 0xff
  }

  function CVal(c: octet): octet {
    (CNum0(c) & CNum(c)) | (CAlpha0(c) & CAlpha(c))
  }

  lemma HexFormulas(c: octet)
    ensures CBad(c) == 0 <==> IsHex(c)
    ensures IsHex(c) ==> CVal(c) == Digit(c)
  {
  }

  lemma HexCharIsLower(c: octet)
    requires IsHex(c)
    ensures HexChar(Digit(c)) == Lower(c)
  {
  }

  lemma DigitOfHexChar(n: bv32)
    requires n < 16
    ensures IsHex(HexChar(n)) && Digit(HexChar(n)) == n && Lower(HexChar(n)) == HexChar(n)
  {
  }

  function High(b: octet): (n: bv32)
    ensures n < 16
  {
    b >> 4
  }

  function Low(b: octet): (n: bv32)
    ensures n < 16
  {
    b & 0xf
  }

  /** `c_acc | c_val`, with the first value times 16 reduced to a byte. */
  function Halves(h: octet, l: octet): octet {
    ((h * 16) & 0xff) | l
  }

  lemma HalvesOfByte(b: octet)
    ensures Halves(High(b), Low(b)) == b
  {
  }

  lemma ByteOfHalves(h: octet, l: octet)
    requires h < 16 && l < 16
    ensures High(Halves(h, l)) == h && Low(Halves(h, l)) == l
  {
  }

  function ToHex(key: Key): (s: seq<octet>)
    ensures |s| == 64
  {
    seq(64, i requires 0 <= i < 64 => HexChar(if i % 2 == 0 then High(key[i / 2]) else Low(key[i / 2])))
  }

  function LowerAll(s: seq<octet>): (r: seq<octet>)
    ensures |r| == |s| && forall i :: 0 <= i < |s| ==> r[i] == Lower(s[i])
  {
    seq(|s|, i requires 0 <= i < |s| => Lower(s[i]))
  }

  lemma HexIsInjective(k: Key, l: Key)
    requires ToHex(k) == ToHex(l)
    ensures k == l
  {
    hide HexChar, Digit, High, Low, Halves, Lower, IsHex;
    forall i | 0 <= i < KEY_LEN
      ensures k[i] == l[i]
    {
      var s, t := ToHex(k), ToHex(l);
      assert s[2 * i] == t[2 * i] && s[2 * i + 1] == t[2 * i + 1];
      DigitOfHexChar(High(k[i]));
      DigitOfHexChar(High(l[i]));
      DigitOfHexChar(Low(k[i]));
      DigitOfHexChar(Low(l[i]));
      HalvesOfByte(k[i]);
      HalvesOfByte(l[i]);
    }
  }

  /** The text of a key is in lower case, and all of it is hexadecimal. */
  lemma HexIsLowerCase(key: Key)
    ensures LowerAll(ToHex(key)) == ToHex(key)
    ensures forall i :: 0 <= i < 64 ==> IsHex(ToHex(key)[i])
  {
    hide HexChar, Digit, High, Low, Lower, IsHex;
    forall i | 0 <= i < 64
      ensures IsHex(ToHex(key)[i]) && Lower(ToHex(key)[i]) == ToHex(key)[i]
    {
      DigitOfHexChar(if i % 2 == 0 then High(key[i / 2]) else Low(key[i / 2]));
    }
  }

  /** `key_to_hex`: the text and its terminating zero. */
  method KeyToHex(hex: array<octet>, key: Key)
    requires hex.Length == 65
    modifies hex
    ensures hex[..] == ToHex(key) + [0]
  {
    hide HexChar, High, Low;
    for i := 0 to KEY_LEN
      invariant hex[..2 * i] == ToHex(key)[..2 * i]
    {
      hex[i * 2] := HexChar(High(key[i]));
      hex[i * 2 + 1] := HexChar(Low(key[i]));
    }
    hex[64] := 0;
  }

  /** `key_from_hex` on a string without its terminating zero: it accepts exactly 64 digits in either
      case, and the key it delivers is written as the same digits in lower case. */
  method KeyFromHex(key: array<octet>, hex: seq<octet>) returns (ok: bool)
    requires key.Length == KEY_LEN
    modifies key
    ensures ok <==> |hex| == 64 && forall i :: 0 <= i < 64 ==> IsHex(hex[i])
    ensures ok ==> ToHex(key[..]) == LowerAll(hex)
  {
    hide HexChar, High, Low, Lower, IsHex, CBad, CVal, Digit, Or, Sar8, Halves;
    if |hex| != 64 {
      return false;
    }
    var ret: octet := 0;
    var i := 0;
    while i < 64
      invariant 0 <= i <= 64 && i % 2 == 0
      invariant ret == 0 <==> forall k :: 0 <= k < i ==> IsHex(hex[k])
      invariant ret == 0 ==> forall k :: 0 <= k < i ==>
                  Lower(hex[k]) == HexChar(if k % 2 == 0 then High(key[k / 2]) else Low(key[k / 2]))
    {
      ghost var was := ret;
      var c := hex[i];
      OrIsZero(ret, CBad(c));
      HexFormulas(c);
      ret := Or(ret, CBad(c));
      var first := CVal(c);
      c := hex[i + 1];
      OrIsZero(ret, CBad(c));
      HexFormulas(c);
      ret := Or(ret, CBad(c));
      key[i / 2] := Halves(first, CVal(c));
      if ret == 0 {
        HexCharIsLower(hex[i]);
        HexCharIsLower(hex[i + 1]);
        ByteOfHalves(first, CVal(c));
      }
      i := i + 2;
    }
    Verdict(ret);
    ok := (1 & Sar8(ret - 1)) != 0;
  }

  /** `key_is_zero`. */
  method KeyIsZero(key: Key) returns (zero: bool)
    ensures zero <==> forall i :: 0 <= i < KEY_LEN ==> key[i] == 0
  {
    hide Or, Sar8;
    var acc: octet := 0;
    for i := 0 to KEY_LEN
      invariant acc == 0 <==> forall k :: 0 <= k < i ==> key[k] == 0
    {
      OrIsZero(acc, key[i]);
      acc := Or(acc, key[i]);
    }
    Verdict(acc);
    zero := (1 & Sar8(acc - 1)) != 0;
  }
}
