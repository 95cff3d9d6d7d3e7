/**
 * The factorization of small products in pxcutils/pxc/utils/crypto.cpp: the binary greatest
 * common divisor, multiplication modulo pq by doubling, and the search for a cycle of
 * squares.  Every variable is a 64-bit word, so that the proofs also show that no sum
 * overflows.  The random draws are parameters.
 */
module PqFactorize {
  const LIMIT: nat := 0x1_0000_0000_0000_0000
  const MAX_PQ: nat := 0x8000_0000_0000_0000

  type U64 = x: nat | x < LIMIT

  // ----- divisors

  ghost predicate Times(d: nat, k: nat, n: nat) { d * k == n }

  ghost predicate Divides(d: nat, n: nat) {
    exists k: nat :: Times(d, k, n)
  }

  /** d divides both. */
  ghost predicate Common(d: nat, a: nat, b: nat) { Divides(d, a) && Divides(d, b) }

  ghost predicate SameCommon(a: nat, b: nat, a': nat, b': nat) {
    forall d :: Common(d, a, b) <==> Common(d, a', b')
  }

  /** g divides both numbers, and is divided by every number that does. */
  ghost predicate IsGcd(g: nat, a: nat, b: nat) {
    Common(g, a, b) && forall d :: Common(d, a, b) ==> Divides(d, g)
  }

  lemma DividesSelf(n: nat)
    ensures Divides(n, n) && Divides(n, 0) && Divides(1, n)
  {
    assert Times(n, 1, n) && Times(n, 0, 0) && Times(1, n, n);
  }

  lemma DividesSum(d: nat, a: nat, b: nat)
    requires Divides(d, a) && Divides(d, b)
    ensures Divides(d, a + b)
  {
    var j: nat :| Times(d, j, a);
    var k: nat :| Times(d, k, b);
    assert d * (j + k) == d * j + d * k;
    assert Times(d, j + k, a + b);
  }

  lemma DividesDifference(d: nat, a: nat, b: nat)
    requires Divides(d, a) && Divides(d, b) && b <= a
    ensures Divides(d, a - b)
  {
    var j: nat :| Times(d, j, a);
    var k: nat :| Times(d, k, b);
    assert d * (j - k) == a - b;
    if j >= k {
      assert Times(d, j - k, a - b);
    } else {
      assert d * (k - j) >= 0 && a - b == -(d * (k - j));
      assert Times(d, 0, a - b);
    }
  }

  lemma OddProduct(d: nat, k: nat)
    requires d * k % 2 == 0 && d % 2 == 1
    ensures k % 2 == 0
  {
    var h := d / 2;
    assert d * k == 2 * (h * k) + k;
  }

  lemma EvenProduct(d: nat, k: nat)
    requires d % 2 == 0
    ensures d * k % 2 == 0
  {
    var h := d / 2;
    assert d * k == 2 * (h * k);
  }

  /** A divisor of an odd number is odd, and divides an even number only if it divides its half. */
  lemma DividesHalf(d: nat, a: nat, b: nat)
    requires a % 2 == 0 && b % 2 == 1 && Common(d, a, b)
    ensures Divides(d, a / 2)
  {
    var j: nat :| Times(d, j, a);
    var k: nat :| Times(d, k, b);
    if d % 2 == 0 { EvenProduct(d, k); }
    OddProduct(d, j);
    var h := j / 2;
    assert d * j == 2 * (d * h);
    assert Times(d, h, a / 2);
  }

  lemma HalfSame(a: nat, b: nat)
    requires a % 2 == 0 && b % 2 == 1
    ensures SameCommon(a, b, a / 2, b)
  {
    forall d ensures Common(d, a, b) <==> Common(d, a / 2, b) {
      if Common(d, a, b) { DividesHalf(d, a, b); }
      if Common(d, a / 2, b) {
        DividesSum(d, a / 2, a / 2);
        assert a / 2 + a / 2 == a;
      }
    }
  }

  lemma DifferenceSame(a: nat, b: nat)
    requires b <= a
    ensures SameCommon(a, b, a - b, b)
  {
    forall d ensures Common(d, a, b) <==> Common(d, a - b, b) {
      if Common(d, a, b) { DividesDifference(d, a, b); }
      if Common(d, a - b, b) { DividesSum(d, a - b, b); }
    }
  }

  lemma SwapSame(a: nat, b: nat)
    ensures SameCommon(a, b, b, a)
  {
    forall d ensures Common(d, a, b) <==> Common(d, b, a) {
    }
  }

  lemma SameTrans(a: nat, b: nat, c: nat, d: nat, e: nat, f: nat)
    requires SameCommon(a, b, c, d) && SameCommon(c, d, e, f)
    ensures SameCommon(a, b, e, f)
  {
    forall x ensures Common(x, a, b) <==> Common(x, e, f) {
      assert Common(x, a, b) <==> Common(x, c, d);
      assert Common(x, c, d) <==> Common(x, e, f);
    }
  }

  lemma EqualIsGcd(g: nat, a: nat, b: nat)
    requires SameCommon(a, b, g, g)
    ensures IsGcd(g, a, b)
  {
    DividesSelf(g);
    assert Common(g, g, g) <==> Common(g, a, b);
    forall d | Common(d, a, b) ensures Divides(d, g) {
      assert Common(d, g, g);
    }
  }

  /** while ((a & 1) == 0) a >>= 1, beside an odd number. */
  method Strip(a0: U64, ghost b: nat) returns (a: U64)
    requires a0 > 0 && b % 2 == 1
    ensures 0 < a <= a0 && a % 2 == 1 && SameCommon(a0, b, a, b)
  {
    a := a0;
    while a % 2 == 0
      invariant 0 < a <= a0 && SameCommon(a0, b, a, b)
      decreases a
    {
      HalfSame(a, b);
      SameTrans(a0, b, a, b, a / 2, b);
      a := a / 2;
    }
  }

  /** One turn of the loop: the larger number loses the smaller one and its factors of two. */
  method Reduce(a: U64, b: U64) returns (c: U64)
    requires a % 2 == 1 && b % 2 == 1 && a > b
    ensures 0 < c < a && c % 2 == 1 && SameCommon(a, b, c, b)
  {
    DifferenceSame(a, b);
    HalfSame(a - b, b);
    SameTrans(a, b, a - b, b, (a - b) / 2, b);
    c := Strip((a - b) / 2, b);
    SameTrans(a, b, (a - b) / 2, b, c, b);
  }

  /** pq_gcd: the greatest common divisor, if the second number is odd. */
  method Gcd(a0: U64, b0: U64) returns (g: U64)
    requires b0 % 2 == 1
    ensures IsGcd(g, a0, b0) && 0 < g && (a0 > 0 ==> g <= a0) && g <= b0
  {
    if a0 == 0 {
      DividesSelf(b0);
      return b0;
    }
    var a := Strip(a0, b0);
    var b := b0;
    while a != b
      invariant a % 2 == 1 && b % 2 == 1 && 0 < a <= a0 && 0 < b <= b0 && SameCommon(a0, b0, a, b)
      decreases a + b
    {
      if a > b {
        var c := Reduce(a, b);
        SameTrans(a0, b0, a, b, c, b);
        a := c;
      } else {
        var c := Reduce(b, a);
        SwapSame(a, b);
        SameTrans(a, b, b, a, c, a);
        SwapSame(c, a);
        SameTrans(a, b, c, a, a, c);
        SameTrans(a0, b0, a, b, a, c);
        b := c;
      }
    }
    EqualIsGcd(a, a0, b0);
    g := a;
  }

  // ----- multiplication by doubling

  lemma MulMono(a: int, b: int, c: int)
    requires a < b && c > 0
    ensures a * c + c <= b * c
  {
    var d := b - a - 1;
    assert d * c >= 0;
    assert b * c == (a + 1 + d) * c == a * c + c + d * c;
  }

  lemma ModIs(x: int, r: int, k: int, pq: int)
    requires pq > 0 && x == r + k * pq && 0 <= r < pq
    ensures x % pq == r
  {
    var q, m := x / pq, x % pq;
    assert x == q * pq + m && 0 <= m < pq;
    OneRest(q, m, k, r, pq);
  }

  lemma OneRest(q: int, m: int, k: int, r: int, pq: int)
    requires pq > 0 && 0 <= m < pq && 0 <= r < pq && q * pq + m == k * pq + r
    ensures m == r
  {
    if q < k {
      MulMono(q, k, pq);
    } else if k < q {
      MulMono(k, q, pq);
    }
  }

  /** One bit of b: c takes a if the bit is set, and a doubles; both modulo pq. */
  lemma AddMulBit(c: int, a: int, b: int, c': int, a': int, e: int, f: int, pq: int)
    requires b >= 0 && a' == 2 * a - f * pq && c' == (if b % 2 == 1 then c + a else c) - e * pq
    ensures c + a * b == c' + a' * (b / 2) + (e + f * (b / 2)) * pq
  {
    var h := b / 2;
    assert b == 2 * h + b % 2;
    assert a * b == (2 * a) * h + a * (b % 2);
    assert a' * h == (2 * a) * h - (f * h) * pq by { assert (f * pq) * h == (f * h) * pq; }
    assert (e + f * h) * pq == e * pq + (f * h) * pq;
  }

  /** One turn of the loop of pq_add_mul. */
  method AddMulTurn(c0: U64, a0: U64, b: U64, pq: U64) returns (c: U64, a: U64, ghost d: int)
    requires a0 < pq && c0 < pq <= MAX_PQ
    ensures a < pq && c < pq && c0 + a0 * b == c + a * (b / 2) + d * pq
  {
    c, a := c0, a0;
    ghost var e, f := 0, 0;
    if b % 2 == 1 {
      c := c + a;
      if c >= pq {
        c, e := c - pq, 1;
      }
    }
    a := a + a;
    if a >= pq {
      a, f := a - pq, 1;
    }
    AddMulBit(c0, a0, b, c, a, e, f, pq);
    d := e + f * (b / 2);
  }

  lemma MoreMultiples(x: int, y: int, z: int, k: int, d: int, pq: int)
    requires x == y + k * pq && y == z + d * pq
    ensures x == z + (k + d) * pq
  {
  }

  /** pq_add_mul */
  method AddMul(c0: U64, a0: U64, b0: U64, pq: U64) returns (c: U64)
    requires a0 < pq && c0 < pq <= MAX_PQ
    ensures c == (c0 + a0 * b0) % pq && c < pq
  {
    c := c0;
    var a: U64, b: U64 := a0, b0;
    ghost var k := 0;
    while b != 0
      invariant a < pq && c < pq
      invariant c0 + a0 * b0 == c + a * b + k * pq
      decreases b
    {
      ghost var was, d := c + a * b, 0;
      c, a, d := AddMulTurn(c, a, b, pq);
      b := b / 2;
      MoreMultiples(c0 + a0 * b0, was, c + a * b, k, d, pq);
      k := k + d;
    }
    ModIs(c0 + a0 * b0, c, k, pq);
  }

  // ----- factorization

  /** A divisor that is not above the square root. */
  ghost predicate SmallDivisor(g: nat, pq: nat) {
    Divides(g, pq) && g * g <= pq
  }

  lemma OneDivides(pq: nat)
    requires pq > 0
    ensures SmallDivisor(1, pq)
  {
    DividesSelf(pq);
  }

  /** Of a divisor and the quotient, the smaller one is not above the square root. */
  lemma SmallerIsSmall(g: nat, pq: nat)
    requires g > 0 && pq > 0 && Divides(g, pq)
    ensures SmallDivisor(if pq / g < g then pq / g else g, pq)
  {
    var k: nat :| Times(g, k, pq);
    ModIs(pq, 0, k, g);
    QuotientIs(g, k, pq);
    assert Times(k, g, pq);
    if k < g {
      assert k * (g - k) >= 0;
      assert k * g == k * k + k * (g - k);
    } else {
      assert g * (k - g) >= 0;
      assert g * k == g * g + g * (k - g);
    }
  }

  lemma QuotientIs(g: nat, k: nat, n: nat)
    requires g > 0 && g * k == n
    ensures n / g == k
  {
    var q, m := n / g, n % g;
    assert n == q * g + m && 0 <= m < g;
    assert k * g == n;
    OneRest(q, m, k, 0, g);
    if q < k {
      MulMono(q, k, g);
    } else if k < q {
      MulMono(k, q, g);
    }
  }

  function Min(a: nat, b: nat): nat { if a < b then a else b }

  // ----- the search, by what it computes

  function Pow2(n: nat): (p: nat)
    ensures p > 0 && (n > 0 ==> p > 1)
  {
    if n == 0 then 1 else 2 * Pow2(n - 1)
  }

  ghost predicate IsPower(c: nat) { exists n :: Pow2(n) == c }

  /** The j-th value of a start: x becomes q + x * x modulo pq. */
  function X(pq: nat, q: nat, x0: nat, j: nat): (x: nat)
    requires x0 < pq
    ensures x < pq
  {
    if j == 0 then x0 else (q + X(pq, q, x0, j - 1) * X(pq, q, x0, j - 1)) % pq
  }

  /** The value that the j-th is compared with: the first one, and then the one at the last power of two before j. */
  ghost predicate IsCheckpoint(c: nat, j: nat) {
    if j <= 1 then c == 0 else IsPower(c) && c < j <= 2 * c
  }

  /** The j-th comparison of a start gives the common divisor g. */
  ghost predicate Meets(pq: nat, q: nat, x0: nat, j: nat, g: nat)
    requires x0 < pq
  {
    exists c :: IsCheckpoint(c, j) && IsGcd(g, (X(pq, q, x0, j) - X(pq, q, x0, c)) % pq, pq)
  }

  /** A start ends at its n-th comparison with g: the first one that gives not 1, or the last one. */
  ghost predicate Ends(pq: nat, q: nat, x0: nat, lim: nat, g: nat, n: nat)
    requires x0 < pq
  {
    && 1 <= n < lim && Meets(pq, q, x0, n, g)
    && (forall j :: 1 <= j < n ==> Meets(pq, q, x0, j, 1))
    && (g == 1 ==> n == lim - 1)
  }

  lemma {:induction false} PowersApart(m: nat, n: nat)
    requires m < n
    ensures 2 * Pow2(m) <= Pow2(n)
  {
    if m + 1 < n { PowersApart(m, n - 1); }
  }

  lemma OneCheckpoint(b: nat, c: nat, j: nat)
    requires IsCheckpoint(b, j) && IsCheckpoint(c, j)
    ensures b == c
  {
    if j > 1 {
      var m: nat :| Pow2(m) == b;
      var n: nat :| Pow2(n) == c;
      if m < n { PowersApart(m, n); }
      if n < m { PowersApart(n, m); }
    }
  }

  lemma {:induction false} PowerIsPower(j: nat)
    requires j > 0
    ensures PowerOrZero(j) <==> IsPower(j)
  {
    if j == 1 {
      assert Pow2(0) == 1;
    } else {
      PowerIsPower(j / 2);
      if PowerOrZero(j) {
        var n: nat :| Pow2(n) == j / 2;
        assert Pow2(n + 1) == j;
      }
      if IsPower(j) {
        var n: nat :| Pow2(n) == j;
        assert n > 0 && Pow2(n - 1) == j / 2;
      }
    }
  }

  /** After the j-th comparison the checkpoint moves to j if j is a power of two, and else stays. */
  lemma NextCheckpoint(c: nat, j: nat)
    requires j > 0 && IsCheckpoint(c, j)
    ensures IsCheckpoint(if PowerOrZero(j) then j else c, j + 1)
  {
    PowerIsPower(j);
    if j > 1 && !PowerOrZero(j) {
      var n: nat :| Pow2(n) == c;
      assert Pow2(n + 1) == 2 * c;
    }
  }

  lemma TwoDivisors(a: nat, b: nat)
    requires Divides(a, b) && Divides(b, a)
    ensures a == b
  {
    var j: nat :| Times(a, j, b);
    var k: nat :| Times(b, k, a);
    if a > 0 && b > 0 {
      if j == 0 || k == 0 { assert false; }
      assert a * j >= a by { assert a * (j - 1) >= 0; }
      assert b * k >= b by { assert b * (k - 1) >= 0; }
    }
  }

  lemma OneGcd(g: nat, h: nat, a: nat, b: nat)
    requires IsGcd(g, a, b) && IsGcd(h, a, b)
    ensures g == h
  {
    TwoDivisors(g, h);
  }

  lemma MeetsOne(pq: nat, q: nat, x0: nat, j: nat, g: nat, h: nat)
    requires x0 < pq && Meets(pq, q, x0, j, g) && Meets(pq, q, x0, j, h)
    ensures g == h
  {
    var b :| IsCheckpoint(b, j) && IsGcd(g, (X(pq, q, x0, j) - X(pq, q, x0, b)) % pq, pq);
    var c :| IsCheckpoint(c, j) && IsGcd(h, (X(pq, q, x0, j) - X(pq, q, x0, c)) % pq, pq);
    OneCheckpoint(b, c, j);
    OneGcd(g, h, (X(pq, q, x0, j) - X(pq, q, x0, b)) % pq, pq);
  }

  /** What a start ends with, and when, is determined by its draws. */
  lemma EndsOnce(pq: nat, q: nat, x0: nat, lim: nat, g: nat, n: nat, h: nat, m: nat)
    requires x0 < pq && Ends(pq, q, x0, lim, g, n) && Ends(pq, q, x0, lim, h, m)
    ensures g == h && n == m
  {
    if n < m { MeetsOne(pq, q, x0, n, g, 1); }
    if m < n { MeetsOne(pq, q, x0, m, h, 1); }
    MeetsOne(pq, q, x0, n, g, h);
  }

  /** The difference of two words below pq, modulo pq. */
  lemma DifferenceIs(x: nat, y: nat, pq: nat)
    requires x < pq && y < pq
    ensures (x - y) % pq == if x < y then pq + x - y else x - y
  {
    ModIs(x - y, if x < y then pq + x - y else x - y, if x < y then -1 else 0, pq);
  }

  /** !(j & (j - 1)) */
  predicate PowerOrZero(j: nat) {
    j == 0 || j == 1 || (j % 2 == 0 && PowerOrZero(j / 2))
  }

  /** One turn of the search: the next square, and its common divisor with an earlier one. */
  method Turn(pq: U64, q: U64, x: U64, y: U64) returns (x': U64, g: U64)
    requires 2 < pq <= MAX_PQ && pq % 2 == 1 && q < pq && x < pq && y < pq
    ensures x' == (q + x * x) % pq && x' < pq
    ensures IsGcd(g, (x' - y) % pq, pq) && 0 < g <= pq
  {
    x' := AddMul(q, x, x, pq);
    var z: U64;
    if x' < y {
      var sum: U64 := pq + x';
      z := sum - y;
    } else {
      z := x' - y;
    }
    DifferenceIs(x', y, pq);
    g := Gcd(z, pq);
  }

  /** One start of the search: it ends with the first common divisor that is not 1, or after lim - 1 turns with 1. */
  method Search(pq: U64, q: U64, x0: U64, lim: nat, iter0: nat) returns (g: U64, iter: nat)
    requires 2 < pq <= MAX_PQ && pq % 2 == 1 && q < pq && x0 < pq && lim > 1
    ensures iter > iter0 && Ends(pq, q, x0, lim, g, iter - iter0)
    ensures 0 < g <= pq && Divides(g, pq)
  {
    var x: U64, y: U64 := x0, x0;
    ghost var c := 0;
    iter := iter0;
    g := 0;
    var j := 1;
    while j < lim
      invariant 1 <= j <= lim && iter == iter0 + j - 1
      invariant x == X(pq, q, x0, j - 1) && IsCheckpoint(c, j) && y == X(pq, q, x0, c)
      invariant forall i :: 1 <= i < j ==> Meets(pq, q, x0, i, 1)
      invariant j > 1 ==> g == 1
    {
      iter := iter + 1;
      x, g := Turn(pq, q, x, y);
      assert x == X(pq, q, x0, j);
      assert Meets(pq, q, x0, j, g);
      if g != 1 {
        return;
      }
      NextCheckpoint(c, j);
      if PowerOrZero(j) {
        y, c := x, j;
      }
      j := j + 1;
    }
    DividesSelf(pq);
  }

  // ----- all the starts

  function Lim(i: nat): nat { Pow2(Min(5, i) + 18) }

  function DrawQ(pq: nat, draws: nat -> (U64, U64), i: nat): nat
    requires pq > 2
  {
    draws(i).0 % (pq - 1)
  }

  function DrawX(pq: nat, draws: nat -> (U64, U64), i: nat): (x: nat)
    requires pq > 2
    ensures x < pq
  {
    draws(i).1 % (pq - 1) + 1
  }

  function Sum(ns: seq<nat>): nat { if ns == [] then 0 else Sum(ns[..|ns| - 1]) + ns[|ns| - 1] }

  /** Another start is made before the i-th after so many turns. */
  predicate GoesOn(i: nat, turns: nat) { i < 3 || turns < 1000 }

  /** The i-th start ends after n turns with g. */
  ghost predicate StartEnds(pq: nat, draws: nat -> (U64, U64), i: nat, g: nat, n: nat)
    requires pq > 2
  {
    Ends(pq, DrawQ(pq, draws, i), DrawX(pq, draws, i), Lim(i), g, n)
  }

  ghost predicate EachGoesOn(ns: seq<nat>) { forall i :: 0 <= i < |ns| ==> GoesOn(i, Sum(ns[..i])) }

  /** The first |gs| starts are made and end with gs after ns turns; none before the last finds a proper divisor. */
  ghost predicate Started(pq: nat, draws: nat -> (U64, U64), gs: seq<nat>, ns: seq<nat>)
    requires pq > 2
  {
    && |ns| == |gs| && EachGoesOn(ns)
    && (forall i :: 0 <= i < |gs| ==> StartEnds(pq, draws, i, gs[i], ns[i]))
    && (forall i :: 0 <= i < |gs| - 1 ==> !(1 < gs[i] < pq))
  }

  /** And they are all the starts: the last one finds a proper divisor, or enough was tried. */
  ghost predicate AllStarts(pq: nat, draws: nat -> (U64, U64), gs: seq<nat>, ns: seq<nat>)
    requires pq > 2
  {
    Started(pq, draws, gs, ns) && gs != [] && (1 < gs[|gs| - 1] < pq || !GoesOn(|gs|, Sum(ns)))
  }

  /** What is returned if the last start ended with g: the smaller of a proper divisor and its quotient, or 1. */
  ghost predicate Answers(pq: nat, g: nat, r: nat) {
    if 1 < g < pq then r > 1 && ((r == g && g * g <= pq) || (r * g == pq && r < g)) else r == 1
  }

  /** r is what the last of all starts that are made gives. */
  ghost predicate AnswersStarts(pq: nat, draws: nat -> (U64, U64), r: nat)
    requires pq > 2
  {
    exists gs, ns :: AllStarts(pq, draws, gs, ns) && Answers(pq, gs[|gs| - 1], r)
  }

  lemma ProperCofactor(g: nat, k: nat, pq: nat)
    requires g * k == pq && 1 < g < pq
    ensures k > 1 && (k >= g ==> g * g <= pq)
  {
    if k >= g { assert g * (k - g) >= 0; }
  }

  lemma WholeCofactor(k: nat, pq: nat)
    requires pq * k == pq && pq > 0
    ensures k == 1
  {
    QuotientIs(pq, k, pq);
  }

  lemma AnswerIs(pq: nat, g: nat)
    requires pq > 1 && 0 < g <= pq && Divides(g, pq)
    ensures Answers(pq, g, if pq / g < g then pq / g else g)
  {
    var k: nat :| Times(g, k, pq);
    QuotientIs(g, k, pq);
    if 1 < g < pq {
      ProperCofactor(g, k, pq);
    } else if g == pq {
      WholeCofactor(k, pq);
    }
  }

  lemma GoesOnMore(ns: seq<nat>, n: nat)
    requires EachGoesOn(ns) && GoesOn(|ns|, Sum(ns))
    ensures EachGoesOn(ns + [n]) && Sum(ns + [n]) == Sum(ns) + n
  {
    var ns' := ns + [n];
    assert ns'[..|ns|] == ns;
    forall i | 0 <= i < |ns'| ensures GoesOn(i, Sum(ns'[..i])) {
      if i < |ns| { assert ns'[..i] == ns[..i]; }
    }
  }

  lemma StartedMore(pq: nat, draws: nat -> (U64, U64), gs: seq<nat>, ns: seq<nat>, g: nat, n: nat)
    requires pq > 2 && Started(pq, draws, gs, ns) && (gs != [] ==> !(1 < gs[|gs| - 1] < pq))
    requires GoesOn(|gs|, Sum(ns)) && StartEnds(pq, draws, |gs|, g, n)
    ensures Started(pq, draws, gs + [g], ns + [n]) && Sum(ns + [n]) == Sum(ns) + n
  {
    GoesOnMore(ns, n);
  }

  /** i starts are made, with g from the last one. */
  ghost predicate Tried(pq: nat, draws: nat -> (U64, U64), gs: seq<nat>, ns: seq<nat>, g: nat, i: nat, iter: nat)
    requires pq > 2
  {
    var all := Started(pq, draws, gs, ns) && |gs| == i && Sum(ns) == iter
      && (gs != [] ==> gs[|gs| - 1] == g && 0 < g <= pq && Divides(g, pq));
    all
  }

  /** One turn of the outer loop. */
  method Start(pq: U64, draws: nat -> (U64, U64), i: nat, iter0: nat) returns (g: U64, iter: nat)
    requires pq % 2 == 1 && 2 < pq <= MAX_PQ
    ensures iter > iter0 && StartEnds(pq, draws, i, g, iter - iter0) && 0 < g <= pq && Divides(g, pq)
  {
    var q: U64, x: U64 := draws(i).0 % (pq - 1), draws(i).1 % (pq - 1) + 1;
    g, iter := Search(pq, q, x, Pow2(Min(5, i) + 18), iter0);
  }

  lemma TriedMore(pq: nat, draws: nat -> (U64, U64), gs: seq<nat>, ns: seq<nat>, last: nat, i: nat, iter0: nat, g: nat, iter: nat)
    requires pq > 2 && Tried(pq, draws, gs, ns, last, i, iter0) && !(1 < last < pq) && GoesOn(i, iter0)
    requires iter > iter0 && StartEnds(pq, draws, i, g, iter - iter0) && 0 < g <= pq && Divides(g, pq)
    ensures Tried(pq, draws, gs + [g], ns + [iter - iter0], g, i + 1, iter)
  {
    StartedMore(pq, draws, gs, ns, g, iter - iter0);
  }

  /** The start after those that were made. */
  method NextStart(pq: U64, draws: nat -> (U64, U64), i: nat, iter0: nat, ghost last: nat, ghost gs0: seq<nat>, ghost ns0: seq<nat>)
    returns (g: U64, iter: nat, ghost gs: seq<nat>, ghost ns: seq<nat>)
    requires pq % 2 == 1 && 2 < pq <= MAX_PQ
    requires Tried(pq, draws, gs0, ns0, last, i, iter0) && !(1 < last < pq) && GoesOn(i, iter0)
    ensures iter > iter0 && Tried(pq, draws, gs, ns, g, i + 1, iter)
  {
    g, iter := Start(pq, draws, i, iter0);
    TriedMore(pq, draws, gs0, ns0, last, i, iter0, g, iter);
    gs, ns := gs0 + [g], ns0 + [iter - iter0];
  }

  lemma LastStart(pq: nat, draws: nat -> (U64, U64), gs: seq<nat>, ns: seq<nat>, g: nat, i: nat, iter: nat)
    requires pq > 2 && i > 0 && Tried(pq, draws, gs, ns, g, i, iter) && (1 < g < pq || !GoesOn(i, iter))
    ensures 0 < g <= pq && Divides(g, pq) && forall r: nat :: Answers(pq, g, r) ==> AnswersStarts(pq, draws, r)
  {
    assert AllStarts(pq, draws, gs, ns) && gs[|gs| - 1] == g;
  }

  /** The end: the smaller of the last divisor and its quotient. */
  method Smaller(pq: U64, g0: U64) returns (g: U64)
    requires pq > 2 && 0 < g0 <= pq && Divides(g0, pq)
    ensures Answers(pq, g0, g) && SmallDivisor(g, pq)
  {
    SmallerIsSmall(g0, pq);
    AnswerIs(pq, g0);
    g := g0;
    if g != 0 {
      var other: U64 := pq / g;
      if other < g {
        g := other;
      }
    }
  }

  /** The starts, for an odd pq. */
  method FactorizeOdd(pq: U64, draws: nat -> (U64, U64)) returns (r: U64)
    requires pq % 2 == 1 && 2 < pq <= MAX_PQ
    ensures SmallDivisor(r, pq)
    ensures AnswersStarts(pq, draws, r)
  {
    var g: U64 := 0;
    var i, iter := 0, 0;
    ghost var gs: seq<nat>, ns: seq<nat> := [], [];
    while i < 3 || iter < 1000
      invariant Tried(pq, draws, gs, ns, g, i, iter) && !(1 < g < pq)
      decreases if i < 3 then 3 - i else 0, if iter < 1000 then 1000 - iter else 0
    {
      g, iter, gs, ns := NextStart(pq, draws, i, iter, g, gs, ns);
      if 1 < g < pq {
        LastStart(pq, draws, gs, ns, g, i + 1, iter);
        r := Smaller(pq, g);
        return;
      }
      i := i + 1;
    }
    LastStart(pq, draws, gs, ns, g, i, iter);
    r := Smaller(pq, g);
  }

  /**
   * pq_factorize, for any random draws.  An odd pq is searched from the starts in their order:
   * the answer is a proper divisor if one of the starts that are made ends with one, and else 1.
   */
  method Factorize(pq: U64, draws: nat -> (U64, U64)) returns (r: U64)
    ensures pq > 0 ==> SmallDivisor(r, pq)
    ensures pq <= 2 || pq > MAX_PQ ==> r == 1
    ensures pq % 2 == 0 && 2 < pq <= MAX_PQ ==> r == 2
    ensures pq % 2 == 1 && 2 < pq <= MAX_PQ ==> AnswersStarts(pq, draws, r)
  {
    if pq <= 2 || pq > MAX_PQ {
      if pq > 0 { OneDivides(pq); }
      return 1;
    }
    if pq % 2 == 0 {
      assert Times(2, pq / 2, pq);
      return 2;
    }
    r := FactorizeOdd(pq, draws);
  }

  // ----- what the answer depends on

  lemma {:induction false} StartsOnce(pq: nat, draws: nat -> (U64, U64), gs: seq<nat>, ns: seq<nat>, gs': seq<nat>, ns': seq<nat>)
    requires pq > 2 && Started(pq, draws, gs, ns) && Started(pq, draws, gs', ns') && |gs| <= |gs'|
    ensures gs == gs'[..|gs|] && ns == ns'[..|ns|]
  {
    forall i | 0 <= i < |gs| ensures gs[i] == gs'[i] && ns[i] == ns'[i] {
      assert StartEnds(pq, draws, i, gs[i], ns[i]) && StartEnds(pq, draws, i, gs'[i], ns'[i]);
      EndsOnce(pq, DrawQ(pq, draws, i), DrawX(pq, draws, i), Lim(i), gs[i], ns[i], gs'[i], ns'[i]);
    }
  }

  lemma NoneAfter(pq: nat, draws: nat -> (U64, U64), gs: seq<nat>, ns: seq<nat>, gs': seq<nat>, ns': seq<nat>)
    requires pq > 2 && AllStarts(pq, draws, gs, ns) && Started(pq, draws, gs', ns')
    requires |gs| <= |gs'| && gs == gs'[..|gs|] && ns == ns'[..|gs|]
    ensures gs == gs' && ns == ns'
  {
    var n := |gs|;
    assert gs[n - 1] == gs'[n - 1];
  }

  /** The starts that are made are determined by the draws. */
  lemma AllStartsOnce(pq: nat, draws: nat -> (U64, U64), gs: seq<nat>, ns: seq<nat>, gs': seq<nat>, ns': seq<nat>)
    requires pq > 2 && AllStarts(pq, draws, gs, ns) && AllStarts(pq, draws, gs', ns')
    ensures gs == gs' && ns == ns'
  {
    if |gs| <= |gs'| {
      StartsOnce(pq, draws, gs, ns, gs', ns');
      NoneAfter(pq, draws, gs, ns, gs', ns');
    } else {
      StartsOnce(pq, draws, gs', ns', gs, ns);
      NoneAfter(pq, draws, gs', ns', gs, ns);
    }
  }

  lemma SameQuotient(g: nat, r: nat, r': nat, pq: nat)
    requires g > 0 && r * g == pq && r' * g == pq
    ensures r == r'
  {
    QuotientIs(g, r, pq);
    QuotientIs(g, r', pq);
  }

  lemma SmallerOnce(g: nat, r: nat, pq: nat)
    requires g * g <= pq && r * g == pq
    ensures r >= g
  {
    if r < g { MulMono(r, g, g); }
  }

  lemma AnswerOnce(pq: nat, g: nat, r: nat, r': nat)
    requires Answers(pq, g, r) && Answers(pq, g, r')
    ensures r == r'
  {
    if 1 < g < pq {
      if r * g == pq && g * g <= pq { SmallerOnce(g, r, pq); }
      if r' * g == pq && g * g <= pq { SmallerOnce(g, r', pq); }
      if r * g == pq && r' * g == pq { SameQuotient(g, r, r', pq); }
    }
  }

  /** So is the answer. */
  lemma OneAnswer(pq: nat, draws: nat -> (U64, U64), r: nat, r': nat)
    requires pq > 2 && AnswersStarts(pq, draws, r) && AnswersStarts(pq, draws, r')
    ensures r == r'
  {
    var gs, ns :| AllStarts(pq, draws, gs, ns) && Answers(pq, gs[|gs| - 1], r);
    var gs', ns' :| AllStarts(pq, draws, gs', ns') && Answers(pq, gs'[|gs'| - 1], r');
    AllStartsOnce(pq, draws, gs, ns, gs', ns');
    AnswerOnce(pq, gs[|gs| - 1], r, r');
  }

  lemma FiveOfFifteen()
    ensures IsGcd(5, 5, 15)
  {
    DividesSelf(5);
    assert Times(5, 3, 15);
  }

  /** 15 with the draws 17 and 1: the first comparison is of 7 and 2, and the answer is 3. */
  lemma Fifteen(draws: nat -> (U64, U64))
    requires draws(0) == (17, 1)
    ensures AnswersStarts(15, draws, 3)
  {
    FiveOfFifteen();
    var q, x := DrawQ(15, draws, 0), DrawX(15, draws, 0);
    assert q == 3 && x == 2;
    assert X(15, q, x, 0) == 2 && X(15, q, x, 1) == 7;
    assert IsCheckpoint(0, 1) && Meets(15, q, x, 1, 5);
    assert Lim(0) > 2 by { assert Pow2(17) > 1 && Pow2(18) == 2 * Pow2(17); }
    assert StartEnds(15, draws, 0, 5, 1);
    var gs: seq<nat>, ns: seq<nat> := [5], [1];
    assert ns[..0] == [];
    assert Answers(15, 5, 3);
    assert AllStarts(15, draws, gs, ns);
  }
}
