/**
 * Why the search of pq_factorize in pxcutils/pxc/utils/crypto.cpp finds divisors: modulo a divisor
 * p of pq the squares run into a cycle after at most p steps, and a checkpoint at a power of two
 * in the cycle is met again one period later.
 */
module PqCycle {
  import opened PqFactorize

  // ----- residues

  /** The same modulo p. */
  predicate Same(x: int, y: int, p: nat)
    requires p > 0
  {
    x % p == y % p
  }

  lemma SameIs(x: int, y: int, k: int, p: nat)
    requires p > 0 && x == y + k * p
    ensures Same(x, y, p)
  {
    assert y == (y / p) * p + y % p;
    assert (y / p + k) * p == (y / p) * p + k * p;
    ModIs(x, y % p, y / p + k, p);
  }

  /** What is the same modulo pq is the same modulo its divisors. */
  lemma ModDivisor(x: int, pq: nat, p: nat)
    requires pq > 0 && p > 0 && Divides(p, pq)
    ensures Same(x % pq, x, p)
  {
    var k: nat :| Times(p, k, pq);
    var d := x / pq;
    assert x == d * pq + x % pq;
    assert d * pq == (d * k) * p by { assert d * (p * k) == (d * k) * p; }
    assert x % pq == x + (-(d * k)) * p;
    SameIs(x % pq, x, -(d * k), p);
  }

  lemma SameSquare(x: nat, y: nat, q: nat, p: nat)
    requires p > 0 && Same(x, y, p)
    ensures Same(q + x * x, q + y * y, p)
  {
    var d := x / p - y / p;
    assert x == y + d * p by { assert (x / p) * p - (y / p) * p == d * p; }
    assert x * x == y * y + (d * (x + y)) * p by {
      assert (x - y) * (x + y) == x * x - y * y;
      assert (d * p) * (x + y) == (d * (x + y)) * p;
    }
    SameIs(q + x * x, q + y * y, d * (x + y), p);
  }

  /** The squares after two that are the same modulo p are the same. */
  lemma SameNext(pq: nat, q: nat, x0: nat, p: nat, i: nat, j: nat)
    requires x0 < pq && p > 0 && Divides(p, pq) && Same(X(pq, q, x0, i), X(pq, q, x0, j), p)
    ensures Same(X(pq, q, x0, i + 1), X(pq, q, x0, j + 1), p)
  {
    var x, y := X(pq, q, x0, i), X(pq, q, x0, j);
    SameSquare(x, y, q, p);
    ModDivisor(q + x * x, pq, p);
    ModDivisor(q + y * y, pq, p);
  }

  lemma {:induction false} SameLater(pq: nat, q: nat, x0: nat, p: nat, i: nat, j: nat, n: nat)
    requires x0 < pq && p > 0 && Divides(p, pq) && Same(X(pq, q, x0, i), X(pq, q, x0, j), p)
    ensures Same(X(pq, q, x0, i + n), X(pq, q, x0, j + n), p)
  {
    if n > 0 {
      SameLater(pq, q, x0, p, i, j, n - 1);
      SameNext(pq, q, x0, p, i + n - 1, j + n - 1);
    }
  }

  // ----- a cycle modulo p

  ghost predicate AllBelow(rs: seq<nat>, p: nat) { forall i :: 0 <= i < |rs| ==> rs[i] < p }

  ghost predicate Repeats(rs: seq<nat>, i: nat, j: nat) { i < j < |rs| && rs[i] == rs[j] }

  function Values(rs: seq<nat>): set<nat> { set i | 0 <= i < |rs| :: rs[i] }

  lemma {:induction false} DistinctValues(rs: seq<nat>)
    requires forall i, j: nat :: !Repeats(rs, i, j)
    ensures |Values(rs)| == |rs|
  {
    if rs != [] {
      var init, x := rs[..|rs| - 1], rs[|rs| - 1];
      forall i: nat, j: nat ensures !Repeats(init, i, j) {
        assert !Repeats(rs, i, j);
      }
      DistinctValues(init);
      assert x !in Values(init) by {
        forall i | 0 <= i < |init| ensures init[i] != x { assert !Repeats(rs, i, |rs| - 1); }
      }
      assert Values(rs) == Values(init) + {x} by {
        forall v | v in Values(rs) ensures v in Values(init) + {x} {
          var i :| 0 <= i < |rs| && rs[i] == v;
          if i < |init| { assert init[i] == v; }
        }
        forall v | v in Values(init) + {x} ensures v in Values(rs) {
          if v != x {
            var i :| 0 <= i < |init| && init[i] == v;
            assert rs[i] == v;
          } else {
            assert rs[|rs| - 1] == v;
          }
        }
      }
    }
  }

  function Below(p: nat): set<nat> { if p == 0 then {} else Below(p - 1) + {p - 1} }

  lemma {:induction false} BelowSize(p: nat)
    ensures |Below(p)| == p && forall x: nat :: x in Below(p) <==> x < p
  {
    if p > 0 {
      BelowSize(p - 1);
      assert p - 1 !in Below(p - 1);
    }
  }

  lemma SubsetSize(a: set<nat>, b: set<nat>)
    requires a <= b
    ensures |a| <= |b|
  {
    assert b == a + (b - a);
  }

  /** Among p + 1 numbers below p two are equal. */
  lemma Pigeonhole(rs: seq<nat>, p: nat) returns (i: nat, j: nat)
    requires |rs| == p + 1 && AllBelow(rs, p)
    ensures Repeats(rs, i, j)
  {
    if forall i, j: nat :: !Repeats(rs, i, j) {
      DistinctValues(rs);
      BelowSize(p);
      SubsetSize(Values(rs), Below(p));
      assert false;
    }
    i, j :| Repeats(rs, i, j);
  }

  /** Within p steps the squares come back to an earlier value modulo p. */
  lemma CycleStarts(pq: nat, q: nat, x0: nat, p: nat) returns (i: nat, j: nat)
    requires x0 < pq && p > 0
    ensures i < j <= p && Same(X(pq, q, x0, i), X(pq, q, x0, j), p)
  {
    var rs := seq(p + 1, n requires n >= 0 => X(pq, q, x0, n) % p);
    i, j := Pigeonhole(rs, p);
  }

  // ----- the search meets the cycle

  lemma {:induction false} PowerAbove(m: nat) returns (n: nat)
    requires m > 0
    ensures m <= Pow2(n) < 2 * m
  {
    if m == 1 {
      n := 0;
      assert Pow2(0) == 1;
    } else {
      n := PowerAbove(m - 1);
      if Pow2(n) < m {
        assert Pow2(n + 1) == 2 * Pow2(n);
        n := n + 1;
      }
    }
  }

  /** Two values that are the same modulo p: p divides their difference modulo pq. */
  lemma DifferenceDivided(x: int, y: int, pq: nat, p: nat)
    requires pq > 0 && p > 0 && Divides(p, pq) && Same(x, y, p)
    ensures Divides(p, (x - y) % pq)
  {
    ModDivisor(x - y, pq, p);
    var d := x / p - y / p;
    assert x - y == d * p by { assert (x / p) * p - (y / p) * p == d * p; }
    SameIs(x - y, 0, d, p);
    var z := (x - y) % pq;
    assert z % p == 0;
    assert Times(p, z / p, z);
  }

  lemma OneDivided(p: nat)
    requires Divides(p, 1)
    ensures p == 1
  {
    DividesSelf(p);
    TwoDivisors(p, 1);
  }

  /** If the values at the checkpoint and at the j-th square are the same modulo p > 1, the comparison does not give 1. */
  lemma CollisionIsMet(pq: nat, q: nat, x0: nat, p: nat, c: nat, j: nat)
    requires x0 < pq && p > 1 && Divides(p, pq) && IsCheckpoint(c, j) && Same(X(pq, q, x0, j), X(pq, q, x0, c), p)
    ensures !Meets(pq, q, x0, j, 1)
  {
    if Meets(pq, q, x0, j, 1) {
      var b :| IsCheckpoint(b, j) && IsGcd(1, (X(pq, q, x0, j) - X(pq, q, x0, b)) % pq, pq);
      OneCheckpoint(b, c, j);
      DifferenceDivided(X(pq, q, x0, j), X(pq, q, x0, c), pq, p);
      assert Common(p, (X(pq, q, x0, j) - X(pq, q, x0, c)) % pq, pq);
      OneDivided(p);
    }
  }

  /** Some comparison before the 4p-th does not give 1. */
  lemma CollisionComes(pq: nat, q: nat, x0: nat, p: nat) returns (j: nat)
    requires x0 < pq && p > 1 && Divides(p, pq)
    ensures 1 <= j < 4 * p && !Meets(pq, q, x0, j, 1)
  {
    var a, b := CycleStarts(pq, q, x0, p);
    var period := b - a;
    var n := PowerAbove(if a > period then a else period);
    var c := Pow2(n);
    SameLater(pq, q, x0, p, a, b, c - a);
    j := c + period;
    assert IsPower(c) && IsCheckpoint(c, j);
    CollisionIsMet(pq, q, x0, p, c, j);
  }

  lemma EndsByThen(pq: nat, q: nat, x0: nat, lim: nat, g: nat, n: nat, j: nat)
    requires x0 < pq && Ends(pq, q, x0, lim, g, n) && 1 <= j < lim && !Meets(pq, q, x0, j, 1)
    ensures g != 1 && n <= j
  {
  }

  /** A start finds a common divisor if pq has a divisor p > 1 with 4p not above its limit, in fewer than 4p turns. */
  lemma SmallDivisorIsFound(pq: nat, q: nat, x0: nat, lim: nat, g: nat, n: nat, p: nat)
    requires x0 < pq && p > 1 && Divides(p, pq) && 4 * p <= lim && Ends(pq, q, x0, lim, g, n)
    ensures g != 1 && n < 4 * p
  {
    var j := CollisionComes(pq, q, x0, p);
    EndsByThen(pq, q, x0, lim, g, n, j);
  }
}
