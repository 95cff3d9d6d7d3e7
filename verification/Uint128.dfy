/**
 * The 128-bit arithmetic that pxcutils/pxc/utils/uint128.h emulates with pairs of 64-bit
 * words.  A word is a number below 2^64, and every word operation wraps explicitly.  The
 * reference is arithmetic on the value of a pair, modulo 2^128.
 */
module Uint128 {
  const WORD: nat := 0x1_0000_0000_0000_0000
  const HALF: nat := 0x1_0000_0000
  const MODULUS: nat := 0x1_0000_0000_0000_0000_0000_0000_0000_0000

  type Word = x: nat | x < WORD

  datatype U128 = U128(hi: Word, lo: Word)

  function Value(x: U128): (v: nat)
    ensures v < MODULUS
  {
    x.hi * WORD + x.lo
  }

  // ----- words

  function Wrap(x: int): Word { x % WORD }

  function Pow2(n: nat): (p: nat)
    ensures p > 0
  {
    if n == 0 then 1 else 2 * Pow2(n - 1)
  }

  function Or(a: nat, b: nat): nat {
    if a == 0 && b == 0 then 0 else 2 * Or(a / 2, b / 2) + (if a % 2 == 1 || b % 2 == 1 then 1 else 0)
  }

  function ShlWord(x: Word, c: nat): Word { Wrap(x * Pow2(c)) }

  function ShrWord(x: Word, c: nat): Word { DivPow2(x, c) }

  /** The quotient by 2^c. */
  function DivPow2(x: nat, c: nat): (q: nat)
    ensures q <= x
    decreases c
  {
    if c == 0 then x else DivPow2(x / 2, c - 1)
  }

  lemma {:induction false} DivPow2Rest(x: nat, c: nat) returns (r: nat)
    ensures x == DivPow2(x, c) * Pow2(c) + r && r < Pow2(c)
    decreases c
  {
    if c == 0 {
      r := 0;
    } else {
      r := DivPow2Rest(x / 2, c - 1);
      var q := DivPow2(x, c);
      assert q * Pow2(c) == 2 * (q * Pow2(c - 1));
      r := 2 * r + x % 2;
    }
  }

  /** The quotient is the only one with a remainder below 2^c. */
  lemma DoubledProduct(q: int, p: int, p': int)
    requires p' == 2 * p
    ensures q * p' == 2 * (q * p)
  {
  }

  lemma {:induction false} DivPow2Unique(x: nat, q: nat, r: nat, c: nat)
    requires x == q * Pow2(c) + r && r < Pow2(c)
    ensures DivPow2(x, c) == q
    decreases c
  {
    if c > 0 {
      DoubledProduct(q, Pow2(c - 1), Pow2(c));
      DivPow2Unique(x / 2, q, r / 2, c - 1);
    }
  }

  lemma {:induction false} DivPow2Bound(x: nat, c: nat, d: nat)
    requires x < Pow2(c + d)
    ensures DivPow2(x, c) < Pow2(d)
    decreases c
  {
    if c > 0 {
      assert Pow2(c + d) == 2 * Pow2((c - 1) + d);
      DivPow2Bound(x / 2, c - 1, d);
    }
  }

  lemma {:induction false} Pow2Add(m: nat, n: nat)
    ensures Pow2(m + n) == Pow2(m) * Pow2(n)
  {
    if m > 0 { Pow2Add(m - 1, n); }
  }

  lemma {:induction false} Pow2Mono(m: nat, n: nat)
    requires m <= n
    ensures Pow2(m) <= Pow2(n)
  {
    if m < n { Pow2Mono(m, n - 1); }
  }

  lemma PowersOfTwo()
    ensures Pow2(32) == HALF && Pow2(64) == WORD && Pow2(128) == MODULUS
  {
    assert Pow2(4) == 16;
    Pow2Add(4, 4);
    Pow2Add(8, 8);
    assert Pow2(16) == 0x1_0000;
    Pow2Add(16, 16);
    assert Pow2(32) == HALF;
    Pow2Add(32, 32);
    assert Pow2(64) == WORD;
    Pow2Add(64, 64);
  }

  lemma {:induction false} OrZero(a: nat)
    ensures Or(a, 0) == a
  {
    if a > 0 { OrZero(a / 2); }
  }

  /** Of numbers without a common bit, the bitwise or is the sum. */
  lemma {:induction false} OrIsSum(k: nat, b: nat, c: nat)
    requires b < Pow2(c)
    ensures Or(k * Pow2(c), b) == k * Pow2(c) + b
    decreases c
  {
    var a := k * Pow2(c);
    if c == 0 {
      OrZero(k);
    } else {
      assert a == 2 * (k * Pow2(c - 1));
      OrIsSum(k, b / 2, c - 1);
    }
  }

  // ----- addition and subtraction

  function Add(x: U128, y: U128): U128 {
    var lo := Wrap(y.lo + x.lo);
    var hi := Wrap(y.hi + x.hi);
    if lo < x.lo then U128(Wrap(hi + 1), lo) else U128(hi, lo)
  }

  function Sub(x: U128, y: U128): U128 {
    var carry := if y.lo > x.lo then 1 else 0;
    U128(Wrap(x.hi - y.hi - carry), Wrap(x.lo - y.lo))
  }

  lemma AddIsSum(x: U128, y: U128)
    ensures Value(Add(x, y)) == (Value(x) + Value(y)) % MODULUS
  {
    var lo, hi := y.lo + x.lo, y.hi + x.hi;
    WrapOnce(lo);
    WrapOnce(hi);
    WrapOnce(Wrap(hi) + 1);
  }

  lemma WrapOnce(x: nat)
    requires x < 2 * WORD
    ensures Wrap(x) == if x < WORD then x else x - WORD
  {
  }

  lemma SubIsDifference(x: U128, y: U128)
    ensures Value(Sub(x, y)) == (Value(x) - Value(y)) % MODULUS
  {
    var lo, hi := x.lo - y.lo, x.hi - y.hi - (if y.lo > x.lo then 1 else 0);
    WrapBack(lo);
    WrapBack(hi);
    var v := Value(x) - Value(y);
    assert v == hi * WORD + Wrap(lo);
    ModBack(v);
  }

  lemma WrapBack(x: int)
    requires 0 <= x + WORD && x < WORD
    ensures Wrap(x) == if x < 0 then x + WORD else x
  {
  }

  lemma ModBack(x: int)
    requires 0 <= x + MODULUS && x < MODULUS
    ensures x % MODULUS == if x < 0 then x + MODULUS else x
  {
  }

  // ----- shifts

  function Shl(x: U128, cnt: nat): U128 {
    if cnt == 0 then x
    else if cnt < 64 then U128(Wrap(Or(ShlWord(x.hi, cnt), ShrWord(x.lo, 64 - cnt))), ShlWord(x.lo, cnt))
    else if cnt < 128 then U128(ShlWord(x.lo, cnt - 64), 0)
    else U128(0, 0)
  }

  function Shr(x: U128, cnt: nat): U128 {
    if cnt == 0 then x
    else if cnt < 64 then U128(ShrWord(x.hi, cnt), Wrap(Or(ShrWord(x.lo, cnt), ShlWord(x.hi, 64 - cnt))))
    else if cnt < 128 then U128(0, ShrWord(x.hi, cnt - 64))
    else U128(0, 0)
  }

  /** A word in two parts, of c low bits and 64 - c high bits. */
  lemma Parts(x: Word, c: nat) returns (q: nat, r: nat)
    requires c <= 64
    ensures x == q * Pow2(c) + r && q == DivPow2(x, c) && r < Pow2(c) && q < Pow2(64 - c)
    ensures Pow2(c) * Pow2(64 - c) == WORD
  {
    PowersOfTwo();
    Pow2Add(c, 64 - c);
    assert c + (64 - c) == 64;
    q := DivPow2(x, c);
    r := DivPow2Rest(x, c);
    DivPow2Bound(x, c, 64 - c);
  }

  lemma Commute(a: int, b: int)
    ensures a * b == b * a
  {
  }

  lemma MulMono(a: nat, b: nat, c: nat)
    requires a < b && c > 0
    ensures a * c + c <= b * c
  {
    var k := b - a - 1;
    assert k * c >= 0;
    assert b * c == (a + 1 + k) * c == a * c + c + k * c;
  }

  /** Shifting left keeps the low bits: (q * 2^d + r) * 2^c, with 2^c * 2^d the size of a word. */
  lemma ShlWordIs(x: Word, c: nat, q: nat, r: nat, p: nat, m: nat)
    requires p == Pow2(c) && p * m == WORD && x == q * m + r && r < m
    ensures ShlWord(x, c) == r * p && r * p + p <= WORD
  {
    MulMono(r, m, p);
    assert x * p == q * (p * m) + r * p by {
      assert (q * m) * p == q * (p * m);
    }
    WrapMany(q, r * p);
  }

  lemma WrapMany(q: nat, x: nat)
    requires x < WORD
    ensures Wrap(q * WORD + x) == x
  {
  }

  lemma ModMany(q: nat, x: nat)
    requires x < MODULUS
    ensures (q * MODULUS + x) % MODULUS == x
  {
  }

  /** The words of a short left shift. */
  lemma ShlForm(x: U128, cnt: nat, a: nat, b: nat, q: nat, r: nat, p: nat, m: nat)
    requires 0 < cnt < 64 && p == Pow2(cnt) && m == Pow2(64 - cnt) && p * m == WORD
    requires x.hi == a * m + b && b < m && x.lo == q * m + r && r < m && q == DivPow2(x.lo, 64 - cnt) && q < p
    ensures b * p + q < WORD && r * p < WORD && Shl(x, cnt) == U128(b * p + q, r * p)
  {
    ShlWordIs(x.hi, cnt, a, b, p, m);
    ShlWordIs(x.lo, cnt, q, r, p, m);
    OrIsSum(b, q, cnt);
    WrapMany(0, b * p + q);
  }

  lemma ShlSmall(x: U128, cnt: nat)
    requires 0 < cnt < 64
    ensures Value(Shl(x, cnt)) == (Value(x) * Pow2(cnt)) % MODULUS
  {
    var p, m := Pow2(cnt), Pow2(64 - cnt);
    assert 64 - (64 - cnt) == cnt;
    var a, b := Parts(x.hi, 64 - cnt);
    var q, r := Parts(x.lo, 64 - cnt);
    Commute(p, m);
    ShlForm(x, cnt, a, b, q, r, p, m);
    ShlWords(x, Shl(x, cnt), a, b, q, r, p, m);
  }

  lemma ShlWords(x: U128, y: U128, a: nat, b: nat, q: nat, r: nat, p: nat, m: nat)
    requires p * m == WORD && x.hi == a * m + b && x.lo == q * m + r && y.hi == b * p + q && y.lo == r * p
    ensures Value(y) == (Value(x) * p) % MODULUS
  {
    ShiftedValue(x, a, b, q, r, p, m);
    ModIs(Value(x) * p, a, Value(y), Value(y));
  }

  lemma ShiftedValue(x: U128, a: nat, b: nat, q: nat, r: nat, p: nat, m: nat)
    requires p * m == WORD && x.hi == a * m + b && x.lo == q * m + r
    ensures Value(x) * p == a * MODULUS + (b * p + q) * WORD + r * p
  {
    assert (a * m) * p == a * WORD by { assert (a * m) * p == a * (p * m); }
    assert (q * m) * p == q * WORD by { assert (q * m) * p == q * (p * m); }
    assert x.hi * p == a * WORD + b * p;
    assert x.lo * p == q * WORD + r * p;
    assert Value(x) * p == (x.hi * p) * WORD + x.lo * p;
  }

  lemma ShlLarge(x: U128, cnt: nat)
    requires 64 <= cnt < 128
    ensures Value(Shl(x, cnt)) == (Value(x) * Pow2(cnt)) % MODULUS
  {
    var c := cnt - 64;
    PowersOfTwo();
    Pow2Add(c, 64);
    var p := Pow2(c);
    LowWordShift(x.hi, x.lo, p);
  }

  lemma LowWordShift(hi: Word, lo: Word, p: nat)
    ensures ((hi * WORD + lo) * (p * WORD)) % MODULUS == Wrap(lo * p) * WORD
  {
    var y := lo * p;
    var k, w := y / WORD, y % WORD;
    assert (hi * WORD + lo) * (p * WORD) == (hi * p) * MODULUS + y * WORD;
    assert (hi * p + k) * MODULUS + w * WORD == (hi * p) * MODULUS + y * WORD;
    ModMany(hi * p + k, w * WORD);
  }

  lemma Regrouped(a: int, b: int, c: int)
    ensures a * (b * c) == (a * b) * c
  {
  }

  lemma ShlHuge(x: U128, cnt: nat)
    requires cnt >= 128
    ensures (Value(x) * Pow2(cnt)) % MODULUS == 0
  {
    PowersOfTwo();
    Pow2Add(cnt - 128, 128);
    var k := Value(x) * Pow2(cnt - 128);
    assert Value(x) * Pow2(cnt) == k * MODULUS by { Regrouped(Value(x), Pow2(cnt - 128), MODULUS); }
    ModMany(k, 0);
  }

  /** A left shift multiplies by a power of two, modulo 2^128, for every count. */
  lemma ShlMultiplies(x: U128, cnt: nat)
    ensures Value(Shl(x, cnt)) == (Value(x) * Pow2(cnt)) % MODULUS
  {
    if cnt == 0 {
    } else if cnt < 64 {
      ShlSmall(x, cnt);
    } else if cnt < 128 {
      ShlLarge(x, cnt);
    } else {
      ShlHuge(x, cnt);
    }
  }

  /** The words of a short right shift. */
  lemma ShrForm(x: U128, cnt: nat, a: nat, b: nat, q: nat, p: nat, m: nat)
    requires 0 < cnt < 64 && p == Pow2(cnt) && m == Pow2(64 - cnt) && m * p == WORD
    requires x.hi == a * p + b && b < p && a == DivPow2(x.hi, cnt) && q == DivPow2(x.lo, cnt) && q < m
    ensures a < WORD && b * m + q < WORD && Shr(x, cnt) == U128(a, b * m + q)
  {
    ShlWordIs(x.hi, 64 - cnt, a, b, m, p);
    OrSwap(q, b * m);
    OrIsSum(b, q, 64 - cnt);
    WrapMany(0, b * m + q);
  }

  lemma ShrSmall(x: U128, cnt: nat)
    requires 0 < cnt < 64
    ensures Value(Shr(x, cnt)) == DivPow2(Value(x), cnt)
  {
    var p, m := Pow2(cnt), Pow2(64 - cnt);
    var a, b := Parts(x.hi, cnt);
    var q, r := Parts(x.lo, cnt);
    Commute(p, m);
    ShrForm(x, cnt, a, b, q, p, m);
    ShrValue(x, a, b, q, r, p, m);
    DivPow2Unique(Value(x), Value(Shr(x, cnt)), r, cnt);
  }

  lemma ShrValue(x: U128, a: nat, b: nat, q: nat, r: nat, p: nat, m: nat)
    requires m * p == WORD && x.hi == a * p + b && x.lo == q * p + r
    ensures Value(x) == (a * WORD + b * m + q) * p + r
  {
    assert (a * WORD) * p == (a * p) * WORD;
    assert (b * m) * p == b * WORD by { assert (b * m) * p == b * (m * p); }
    assert (a * WORD + b * m + q) * p == (a * WORD) * p + (b * m) * p + q * p;
  }

  lemma {:induction false} OrSwap(a: nat, b: nat)
    ensures Or(a, b) == Or(b, a)
    decreases a + b
  {
    if a > 0 || b > 0 { OrSwap(a / 2, b / 2); }
  }

  lemma ShrLarge(x: U128, cnt: nat)
    requires 64 <= cnt < 128
    ensures Value(Shr(x, cnt)) == DivPow2(Value(x), cnt)
  {
    var c := cnt - 64;
    var q, r := Parts(x.hi, c);
    PowersOfTwo();
    Pow2Add(c, 64);
    HighWordShift(x.hi, x.lo, q, r, Pow2(c), Pow2(cnt));
    DivPow2Unique(Value(x), q, r * WORD + x.lo, cnt);
  }

  lemma HighWordShift(hi: nat, lo: Word, q: nat, r: nat, p: nat, power: nat)
    requires hi == q * p + r && r < p && power == p * WORD
    ensures hi * WORD + lo == q * power + (r * WORD + lo) && r * WORD + lo < power
  {
    assert q * power == (q * p) * WORD;
    MulMono(r, p, WORD);
  }

  /** A right shift divides by a power of two, for every count. */
  lemma ShrDivides(x: U128, cnt: nat)
    ensures Value(Shr(x, cnt)) == DivPow2(Value(x), cnt)
  {
    if cnt == 0 {
    } else if cnt < 64 {
      ShrSmall(x, cnt);
    } else if cnt < 128 {
      ShrLarge(x, cnt);
    } else {
      PowersOfTwo();
      Pow2Mono(128, cnt);
      DivPow2Unique(Value(x), 0, Value(x), cnt);
    }
  }

  // ----- multiplication

  function Mult(x: U128, y: U128): U128 {
    MultHalves(x, y, x.lo % HALF, x.lo / HALF, y.lo % HALF, y.lo / HALF)
  }

  function MultHalves(x: U128, y: U128, aLo: nat, aHi: nat, bLo: nat, bHi: nat): U128 {
    var res := U128(Wrap(Wrap(x.lo * y.hi) + Wrap(x.hi * y.lo) + Wrap(aHi * bHi)), Wrap(aLo * bLo));
    Add(Add(res, Shl(U128(0, Wrap(aLo * bHi)), 32)), Shl(U128(0, Wrap(aHi * bLo)), 32))
  }

  lemma HalfProduct(a: nat, b: nat)
    requires a < HALF && b < HALF
    ensures a * b < WORD && Wrap(a * b) == a * b
  {
    var k := HALF - 1 - b;
    assert a * k >= 0;
    assert a * b == a * (HALF - 1 - k) == a * (HALF - 1) - a * k;
    WrapMany(0, a * b);
  }

  lemma Shl32(w: Word)
    ensures Value(Shl(U128(0, w), 32)) == w * HALF
  {
    PowersOfTwo();
    ShlMultiplies(U128(0, w), 32);
  }

  lemma ModPlus(a: nat, b: nat)
    ensures (a % MODULUS + b) % MODULUS == (a + b) % MODULUS
  {
    var k := a / MODULUS;
    assert a + b == k * MODULUS + (a % MODULUS + b);
    ModDrop(k, a % MODULUS + b);
  }

  lemma WrapThree(p: int, q: int, u: int) returns (k: int)
    ensures p + q + u == k * WORD + Wrap(Wrap(p) + Wrap(q) + Wrap(u))
  {
    k := (Wrap(p) + Wrap(q) + Wrap(u)) / WORD + p / WORD + q / WORD + u / WORD;
  }

  /** Adding up the partial products. */
  lemma PartialSums(p: int, q: int, u: int, v: nat, s: nat, t: nat)
    ensures (((Wrap(Wrap(p) + Wrap(q) + Wrap(u)) * WORD + v) + s * HALF) % MODULUS + t * HALF) % MODULUS
         == ((p + q + u) * WORD + v + s * HALF + t * HALF) % MODULUS
  {
    var k := WrapThree(p, q, u);
    var low := Wrap(Wrap(p) + Wrap(q) + Wrap(u)) * WORD + v + s * HALF;
    ModPlus(low, t * HALF);
    ModDrop(k, low + t * HALF);
    assert (p + q + u) * WORD + v + s * HALF + t * HALF == k * MODULUS + (low + t * HALF);
  }

  lemma WordsProduct(x: U128, y: U128)
    ensures Value(x) * Value(y) == (x.hi * y.hi) * MODULUS + (x.lo * y.hi + x.hi * y.lo) * WORD + x.lo * y.lo
  {
    var v := Value(y);
    assert Value(x) * v == (x.hi * v) * WORD + x.lo * v;
    assert x.hi * v == (x.hi * y.hi) * WORD + x.hi * y.lo;
    assert x.lo * v == (x.lo * y.hi) * WORD + x.lo * y.lo;
  }

  lemma HalvesProducts(xl: nat, yl: nat, al: nat, ah: nat, bl: nat, bh: nat)
    requires xl == ah * HALF + al && yl == bh * HALF + bl
    ensures xl * yl == (ah * bh) * WORD + (al * bh) * HALF + (ah * bl) * HALF + al * bl
  {
    assert xl * yl == (ah * yl) * HALF + al * yl;
    assert ah * yl == (ah * bh) * HALF + ah * bl;
    assert al * yl == (al * bh) * HALF + al * bl;
  }

  /** The product of the halves of the words is the product modulo 2^128. */
  lemma MultIsProduct(x: U128, y: U128)
    ensures Value(Mult(x, y)) == (Value(x) * Value(y)) % MODULUS
  {
    var al, ah, bl, bh := x.lo % HALF, x.lo / HALF, y.lo % HALF, y.lo / HALF;
    assert x.lo == ah * HALF + al && y.lo == bh * HALF + bl;
    HalvesProduct(x, y, al, ah, bl, bh);
  }

  lemma HalvesProduct(x: U128, y: U128, al: nat, ah: nat, bl: nat, bh: nat)
    requires al < HALF && ah < HALF && bl < HALF && bh < HALF
    requires x.lo == ah * HALF + al && y.lo == bh * HALF + bl
    ensures Value(MultHalves(x, y, al, ah, bl, bh)) == (Value(x) * Value(y)) % MODULUS
  {
    var v, low, k := Value(MultHalves(x, y, al, ah, bl, bh)), LowPart(x, y, al, ah, bl, bh), x.hi * y.hi;
    MultSums(x, y, al, ah, bl, bh, low);
    LowPartIs(x, y, al, ah, bl, bh);
    ModIs(Value(x) * Value(y), k, low, v);
  }

  function LowPart(x: U128, y: U128, al: nat, ah: nat, bl: nat, bh: nat): nat {
    (x.lo * y.hi + x.hi * y.lo + ah * bh) * WORD + al * bl + (al * bh) * HALF + (ah * bl) * HALF
  }

  lemma LowPartIs(x: U128, y: U128, al: nat, ah: nat, bl: nat, bh: nat)
    requires x.lo == ah * HALF + al && y.lo == bh * HALF + bl
    ensures Value(x) * Value(y) == (x.hi * y.hi) * MODULUS + LowPart(x, y, al, ah, bl, bh)
  {
    WordsProduct(x, y);
    HalvesProducts(x.lo, y.lo, al, ah, bl, bh);
  }

  lemma ModIs(product: int, k: int, low: nat, v: nat)
    requires product == k * MODULUS + low && v == low % MODULUS
    ensures v == product % MODULUS
  {
    ModDrop(k, low);
  }

  lemma MultSums(x: U128, y: U128, al: nat, ah: nat, bl: nat, bh: nat, low: nat)
    requires al < HALF && ah < HALF && bl < HALF && bh < HALF
    requires low == (x.lo * y.hi + x.hi * y.lo + ah * bh) * WORD + al * bl + (al * bh) * HALF + (ah * bl) * HALF
    ensures Value(MultHalves(x, y, al, ah, bl, bh)) == low % MODULUS
  {
    HalfProduct(al, bl);
    HalfProduct(al, bh);
    HalfProduct(ah, bl);
    var p: int, q: int, u: int := x.lo * y.hi, x.hi * y.lo, ah * bh;
    var v, s, t := al * bl, al * bh, ah * bl;
    HalvesAre(x, y, al, ah, bl, bh, p, q, u, v, s, t);
    SumsOf(p, q, u, v, s, t);
  }

  lemma HalvesAre(x: U128, y: U128, al: nat, ah: nat, bl: nat, bh: nat, p: int, q: int, u: int, v: Word, s: Word, t: Word)
    requires p == x.lo * y.hi && q == x.hi * y.lo && u == ah * bh
    requires Wrap(al * bl) == v && Wrap(al * bh) == s && Wrap(ah * bl) == t
    ensures MultHalves(x, y, al, ah, bl, bh)
         == Add(Add(U128(Wrap(Wrap(p) + Wrap(q) + Wrap(u)), v), Shl(U128(0, s), 32)), Shl(U128(0, t), 32))
  {
  }

  lemma SumsOf(p: int, q: int, u: int, v: Word, s: Word, t: Word)
    ensures var res := U128(Wrap(Wrap(p) + Wrap(q) + Wrap(u)), v);
      Value(Add(Add(res, Shl(U128(0, s), 32)), Shl(U128(0, t), 32))) == ((p + q + u) * WORD + v + s * HALF + t * HALF) % MODULUS
  {
    var res := U128(Wrap(Wrap(p) + Wrap(q) + Wrap(u)), v);
    Shl32(s);
    Shl32(t);
    AddIsSum(res, Shl(U128(0, s), 32));
    AddIsSum(Add(res, Shl(U128(0, s), 32)), Shl(U128(0, t), 32));
    PartialSums(p, q, u, v, s, t);
  }

  lemma ModDrop(k: int, x: int)
    ensures (k * MODULUS + x) % MODULUS == x % MODULUS
  {
  }

  // ----- division

  function BitLength(x: nat): nat { if x == 0 then 0 else 1 + BitLength(x / 2) }

  /** 64 - the position after the highest one bit, as the machine instruction gives it. */
  function LeadingZeros64(x: Word): int { 64 - BitLength(x) }

  function LeadingZeros(x: U128): int {
    if x.hi == 0 then 64 + LeadingZeros64(x.lo) else LeadingZeros64(x.hi)
  }

  lemma {:induction false} BitLengthBounds(x: nat)
    ensures x < Pow2(BitLength(x)) && (x > 0 ==> BitLength(x) > 0 && Pow2(BitLength(x) - 1) <= x)
  {
    if x > 0 { BitLengthBounds(x / 2); }
  }

  lemma {:induction false} BitLengthIs(x: nat, n: nat)
    requires x < Pow2(n) && n > 0 && Pow2(n - 1) <= x
    ensures BitLength(x) == n
  {
    if n == 1 {
      assert x == 1;
    } else {
      assert Pow2(n - 1) == 2 * Pow2(n - 2);
      BitLengthIs(x / 2, n - 1);
    }
  }

  lemma LongLength(x: U128)
    requires x.hi > 0
    ensures BitLength(Value(x)) == 64 + BitLength(x.hi)
  {
    PowersOfTwo();
    BitLengthBounds(x.hi);
    var n := BitLength(x.hi);
    Pow2Add(n, 64);
    Pow2Add(n - 1, 64);
    BitLengthIs(Value(x), n + 64);
  }

  /** Both words together. */
  lemma LeadingZerosIs(x: U128)
    ensures LeadingZeros(x) == 128 - BitLength(Value(x)) && BitLength(Value(x)) <= 128
  {
    if x.hi > 0 {
      LongLength(x);
      ShortWord(x.hi);
    } else {
      ShortWord(x.lo);
    }
  }

  lemma ShortWord(x: Word)
    ensures BitLength(x) <= 64
  {
    PowersOfTwo();
    BitLengthBounds(x);
    if BitLength(x) > 64 {
      Pow2Mono(64, BitLength(x) - 1);
    }
  }

  predicate GreaterOrEqual(x: U128, y: U128) {
    x.hi > y.hi || (x.hi == y.hi && x.lo >= y.lo)
  }

  function SetLowerBit(x: U128): U128 { U128(x.hi, Wrap(Or(x.lo, 1))) }

  lemma SetLowerBitAdds(x: U128, half: nat)
    requires Value(x) == 2 * half
    ensures Value(SetLowerBit(x)) == Value(x) + 1
  {
    var l := half - x.hi * (WORD / 2);
    assert x.lo == 2 * l;
    OrWithOne(l);
    WrapMany(0, x.lo + 1);
  }

  lemma OrWithOne(l: nat)
    ensures Or(2 * l, 1) == 2 * l + 1
  {
    assert Pow2(1) == 2;
    OrIsSum(l, 1, 1);
  }

  predicate IsZero(x: U128) { x.lo == 0 && x.hi == 0 }

  /** The divisor, shifted as far as the loop starts with, is not cut off and more than half of the dividend. */
  lemma ShiftedDivisor(x: nat, y: nat)
    requires 0 < y && BitLength(y) <= BitLength(x) <= 128
    ensures var s := BitLength(x) - BitLength(y); y * Pow2(s) < MODULUS && x < 2 * (y * Pow2(s))
  {
    var s := BitLength(x) - BitLength(y);
    BitLengthBounds(x);
    BitLengthBounds(y);
    ScaledBounds(y, BitLength(y), s);
    PowersOfTwo();
    Pow2Mono(BitLength(x), 128);
    assert Pow2(BitLength(x)) == 2 * Pow2(BitLength(x) - 1);
  }

  lemma ScaledBounds(y: nat, b: nat, s: nat)
    requires 0 < b && Pow2(b - 1) <= y < Pow2(b)
    ensures Pow2(b + s - 1) <= y * Pow2(s) < Pow2(b + s)
  {
    Pow2Add(b, s);
    Pow2Add(b - 1, s);
    assert b - 1 + s == b + s - 1;
    Scaled(y, Pow2(b - 1), Pow2(b), Pow2(s), Pow2(b + s - 1), Pow2(b + s), y * Pow2(s));
  }

  lemma Scaled(y: nat, low: nat, high: nat, q: nat, lowQ: nat, highQ: nat, yQ: nat)
    requires low <= y < high && q > 0 && lowQ == low * q && highQ == high * q && yQ == y * q
    ensures lowQ <= yQ < highQ
  {
    Below(y, high, q);
    AtLeast(low, y, q);
  }

  lemma Below(a: nat, b: nat, c: nat)
    requires a < b && c > 0
    ensures a * c < b * c
  {
    MulMono(a, b, c);
  }

  lemma AtLeast(a: nat, b: nat, c: nat)
    requires a <= b
    ensures a * c <= b * c
  {
    assert (b - a) * c >= 0;
  }

  /** The shorter number is the smaller one. */
  lemma ShorterIsLess(x: nat, y: nat)
    requires BitLength(x) < BitLength(y)
    ensures x < y
  {
    BitLengthBounds(x);
    BitLengthBounds(y);
    Pow2Mono(BitLength(x), BitLength(y) - 1);
  }

  /** The dividend is quotient so far times d plus rest, and the rest is below d. */
  ghost predicate Dividing(x: nat, res: nat, from: nat, d: nat) {
    x == res * d + from && from < d
  }

  lemma CompareIsValue(x: U128, y: U128)
    ensures GreaterOrEqual(x, y) <==> Value(x) >= Value(y)
  {
  }

  /** The quotient so far fits when it is doubled. */
  lemma DoubledFits(x: nat, res: nat, from: nat, d: nat)
    requires Dividing(x, res, from, 2 * d) && x < MODULUS && d > 0
    ensures 2 * res < MODULUS
    ensures x == (2 * res) * d + from && x == (2 * res + 1) * d + (from - d)
  {
    assert res * (2 * d) == (2 * res) * d;
    assert (2 * res) * (d - 1) >= 0;
    assert (2 * res) * d == (2 * res) * (d - 1) + 2 * res;
    assert (2 * res + 1) * d == (2 * res) * d + d;
  }

  lemma SmallMod(v: int)
    requires 0 <= v < MODULUS
    ensures v % MODULUS == v
  {
  }

  lemma ShlExact(x: U128, cnt: nat)
    requires Value(x) * Pow2(cnt) < MODULUS
    ensures Value(Shl(x, cnt)) == Value(x) * Pow2(cnt)
  {
    ShlMultiplies(x, cnt);
    AtLeast(0, Value(x), Pow2(cnt));
    SmallMod(Value(x) * Pow2(cnt));
  }

  lemma SubExact(x: U128, y: U128)
    requires Value(x) >= Value(y)
    ensures Value(Sub(x, y)) == Value(x) - Value(y)
  {
    SubIsDifference(x, y);
    ModMany(0, Value(x) - Value(y));
  }

  lemma ShlOne(x: U128)
    requires 2 * Value(x) < MODULUS
    ensures Value(Shl(x, 1)) == 2 * Value(x)
  {
    assert Pow2(1) == 2;
    ShlExact(x, 1);
  }

  /** One turn of the loop of divmod. */
  method DivideBit(x: U128, res0: U128, from0: U128, y: U128, i: nat, ghost d: nat) returns (res: U128, from: U128)
    requires d == Value(y) * Pow2(i) && 0 < d < MODULUS && Dividing(Value(x), Value(res0), Value(from0), 2 * d)
    ensures Dividing(Value(x), Value(res), Value(from), d)
  {
    var sub := Shl(y, i);
    ShlExact(y, i);
    DoubledFits(Value(x), Value(res0), Value(from0), d);
    res, from := SubtractIf(x, res0, from0, sub);
  }

  method SubtractIf(x: U128, res0: U128, from0: U128, sub: U128) returns (res: U128, from: U128)
    requires 2 * Value(res0) < MODULUS && Value(from0) < 2 * Value(sub)
    requires Value(x) == (2 * Value(res0)) * Value(sub) + Value(from0)
    requires Value(x) == (2 * Value(res0) + 1) * Value(sub) + (Value(from0) - Value(sub))
    ensures Dividing(Value(x), Value(res), Value(from), Value(sub))
  {
    CompareIsValue(from0, sub);
    if GreaterOrEqual(from0, sub) {
      SubExact(from0, sub);
      from := Sub(from0, sub);
      res := DoubledPlusOne(res0);
      DoubledPlusOneIs(res0);
      DividingIs(Value(x), Value(res), Value(from), Value(sub), 2 * Value(res0) + 1);
    } else {
      ShlOne(res0);
      res, from := Shl(res0, 1), from0;
      DividingIs(Value(x), Value(res), Value(from), Value(sub), 2 * Value(res0));
    }
  }

  function DoubledPlusOne(res: U128): U128 {
    SetLowerBit(Shl(res, 1))
  }

  lemma DoubledPlusOneIs(res: U128)
    requires 2 * Value(res) < MODULUS
    ensures Value(DoubledPlusOne(res)) == 2 * Value(res) + 1
  {
    ShlOne(res);
    SetLowerBitAdds(Shl(res, 1), Value(res));
  }

  lemma DividingIs(x: nat, res: nat, from: nat, d: nat, r: nat)
    requires r == res && x == r * d + from && from < d
    ensures Dividing(x, res, from, d)
  {
  }

  lemma DoubleOf(y: int, p: int)
    ensures y * (2 * p) == 2 * (y * p)
  {
  }

  lemma Positive(a: int, b: int)
    requires a > 0 && b > 0
    ensures a * b > 0
  {
  }

  lemma DoublePower(y: nat, i: nat)
    ensures y * Pow2(i + 1) == 2 * (y * Pow2(i))
    ensures y > 0 ==> y * Pow2(i) > 0
  {
    DoubleOf(y, Pow2(i));
    if y > 0 { Positive(y, Pow2(i)); }
  }

  /** The loop of divmod, from the bit where the divisor is as long as the dividend down to bit 0. */
  method DivideBits(x: U128, y: U128, shift: nat) returns (quot: U128, rem: U128)
    requires Value(y) * Pow2(shift) < MODULUS && Value(y) > 0 && Value(x) < Value(y) * Pow2(shift + 1)
    ensures Value(x) == Value(quot) * Value(y) + Value(rem) && Value(rem) < Value(y)
  {
    var res, from, n: nat := U128(0, 0), x, shift + 1;
    while n > 0
      invariant n <= shift + 1 && Dividing(Value(x), Value(res), Value(from), Value(y) * Pow2(n))
    {
      var i := n - 1;
      DoublePower(Value(y), i);
      Pow2Mono(i, shift);
      AtLeast(Pow2(i), Pow2(shift), Value(y));
      Commute(Pow2(i), Value(y));
      Commute(Pow2(shift), Value(y));
      res, from := DivideBit(x, res, from, y, i, Value(y) * Pow2(i));
      n := i;
    }
    quot, rem := res, from;
  }

  /** The loop starts where the divisor is as long as the dividend. */
  lemma StartFits(x: U128, y: U128, shift: nat)
    requires Value(y) > 0 && LeadingZeros(y) - LeadingZeros(x) == shift
    ensures Value(y) * Pow2(shift) < MODULUS && Value(x) < Value(y) * Pow2(shift + 1)
  {
    LeadingZerosIs(x);
    LeadingZerosIs(y);
    ShiftedDivisor(Value(x), Value(y));
    DoublePower(Value(y), shift);
  }

  lemma MoreZerosIsLess(x: U128, y: U128)
    requires LeadingZeros(x) > LeadingZeros(y)
    ensures Value(x) < Value(y)
  {
    LeadingZerosIs(x);
    LeadingZerosIs(y);
    ShorterIsLess(Value(x), Value(y));
  }

  /** Exact quotient and remainder, for every nonzero divisor. */
  method DivMod(x: U128, y: U128) returns (quot: U128, rem: U128)
    requires !IsZero(y)
    ensures Value(x) == Value(quot) * Value(y) + Value(rem) && Value(rem) < Value(y)
  {
    var ctz, otherCtz := LeadingZeros(x), LeadingZeros(y);
    if ctz > otherCtz {
      MoreZerosIsLess(x, y);
      return U128(0, 0), x;
    }
    var shift := otherCtz - ctz;
    StartFits(x, y, shift);
    quot, rem := DivideBits(x, y, shift);
  }

  /** There is only one such quotient and remainder. */
  lemma DivisionIsUnique(x: nat, y: nat, q: nat, r: nat, q': nat, r': nat)
    requires x == q * y + r == q' * y + r' && r < y && r' < y
    ensures q == q' && r == r'
  {
    if q < q' {
      MulMono(q, q', y);
    } else if q' < q {
      MulMono(q', q, y);
    }
  }

  // ----- signed division

  const SIGN: nat := 0x8000_0000_0000_0000

  /** Two's complement. */
  function Signed(x: U128): int { if x.hi >= SIGN then Value(x) - MODULUS else Value(x) }

  predicate IsNegative(x: U128) { ShrWord(x.hi, 63) == 1 }

  lemma NegativeIsSign(x: U128)
    ensures IsNegative(x) <==> x.hi >= SIGN
  {
    PowersOfTwo();
    assert Pow2(64) == 2 * Pow2(63);
    var r := DivPow2Rest(x.hi, 63);
    var q := DivPow2(x.hi, 63);
    DivPow2Bound(x.hi, 63, 1);
    assert Pow2(1) == 2;
    assert q == 0 || q == 1;
  }

  function Negate(x: U128): U128 {
    var res := U128(WORD - 1 - x.hi, Wrap((WORD - 1 - x.lo) + 1));
    if res.lo == 0 then U128(Wrap(res.hi + 1), 0) else res
  }

  lemma NegateIsOpposite(x: U128)
    ensures Value(Negate(x)) == if Value(x) == 0 then 0 else MODULUS - Value(x)
  {
    WrapOnce((WORD - 1 - x.lo) + 1);
    WrapOnce((WORD - 1 - x.hi) + 1);
  }

  type Int64 = y: int | -0x8000_0000_0000_0000 <= y < 0x8000_0000_0000_0000

  /** A 64-bit pattern as a signed number. */
  function ToInt64(x: int): Int64 {
    var w := Wrap(x);
    if w >= SIGN then w - WORD else w
  }

  function FromSigned(y: Int64): U128 {
    if y >= 0 then U128(0, y) else U128(WORD - 1, Wrap(y))
  }

  function Abs(x: int): nat { if x < 0 then -x else x }

  /** Division that truncates towards zero. */
  ghost predicate TruncatedDivision(x: int, y: int, q: int, r: int) {
    x == q * y + r && Abs(r) < Abs(y) && (r != 0 ==> (r < 0 <==> x < 0))
  }

  function AbsU128(x: U128): U128 { if IsNegative(x) then Negate(x) else x }

  lemma AbsIs(x: U128)
    ensures Value(AbsU128(x)) == Abs(Signed(x))
  {
    NegativeIsSign(x);
    NegateIsOpposite(x);
  }

  lemma FromSignedIs(y: Int64)
    ensures Signed(FromSigned(y)) == y
  {
    WrapBack(y);
  }

  function Negated(p: bool, x: int): int { if p then -x else x }

  lemma Opposite(a: int, b: int)
    ensures (-a) * b == -(a * b) && a * (-b) == -(a * b)
  {
  }

  /** Signs put on the division of absolute values. */
  lemma SignsOn(x: int, y: int, tq: int, tr: int)
    requires y != 0 && tr >= 0 && Abs(x) == tq * Abs(y) + tr && tr < Abs(y)
    ensures TruncatedDivision(x, y, Negated((x < 0) != (y < 0), tq), Negated(x < 0, tr))
  {
    Opposite(tq, y);
  }

  lemma NegateTwice(x: int)
    ensures ToInt64(Negated(true, ToInt64(x))) == ToInt64(Negated(true, x))
  {
    var k := (x - ToInt64(x)) / WORD;
    assert x == k * WORD + ToInt64(x);
    SameWord(Negated(true, x), Negated(true, ToInt64(x)), -k);
  }

  lemma SameWord(a: int, b: int, k: int)
    requires a == b + k * WORD
    ensures ToInt64(a) == ToInt64(b)
  {
  }

  lemma LowWord(x: U128)
    ensures ToInt64(x.lo) == ToInt64(Value(x))
  {
  }

  lemma SmallIsItself(x: int)
    requires 0 <= x + SIGN && x < SIGN
    ensures ToInt64(x) == x
  {
  }

  /**
   * divmod_signed: when the quotient of the truncated division fits into 64 bits, that quotient
   * and the remainder; the remainder always fits.
   */
  method DivModSigned(x: U128, y: Int64) returns (quot: Int64, rem: Int64, ghost q: int)
    requires y != 0
    ensures TruncatedDivision(Signed(x), y, q, rem)
    ensures quot == ToInt64(q)
    ensures 0 <= q + SIGN && q < SIGN ==> quot == q
  {
    var xSgn, ySgn := IsNegative(x), y < 0;
    var ux, uy := AbsU128(x), AbsU128(FromSigned(y));
    SignsAre(x, y);
    var tQuot, tMod := DivMod(ux, uy);
    SignsOn(Signed(x), y, Value(tQuot), Value(tMod));
    q := Negated(xSgn != ySgn, Value(tQuot));
    quot := SignedLow(tQuot, xSgn != ySgn);
    rem := SignedLow(tMod, xSgn);
    SmallIsItself(Negated(xSgn, Value(tMod)));
    if 0 <= q + SIGN && q < SIGN { SmallIsItself(q); }
  }

  lemma SignsAre(x: U128, y: Int64)
    requires y != 0
    ensures IsNegative(x) <==> Signed(x) < 0
    ensures Value(AbsU128(x)) == Abs(Signed(x)) && Value(AbsU128(FromSigned(y))) == Abs(y) <= SIGN
    ensures !IsZero(AbsU128(FromSigned(y)))
  {
    NegativeIsSign(x);
    AbsIs(x);
    FromSignedIs(y);
    AbsIs(FromSigned(y));
  }

  /** *quot = t_quot.lo(), negated if need be. */
  method SignedLow(t: U128, negative: bool) returns (r: Int64)
    ensures r == ToInt64(Negated(negative, Value(t)))
  {
    r := ToInt64(t.lo);
    LowWord(t);
    if negative {
      NegateTwice(Value(t));
      r := ToInt64(Negated(true, r));
    }
  }
}
