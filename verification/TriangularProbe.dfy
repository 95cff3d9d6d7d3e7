/**
 * The probe sequence of the chunked table, pxcutils/pxc/utils/FlatHashMapChunks.h: steps of
 * 1, 2, 3 and so on, masked by the number of chunks, which is a power of two.  The first as
 * many probes as there are chunks visit every chunk once.
 */
module TriangularProbe {
  function Pow2(k: nat): (p: nat)
    ensures p > 0
  {
    if k == 0 then 1 else 2 * Pow2(k - 1)
  }

  /** ChunkIt::next, with the i-th step. */
  function NextChunk(c: nat, i: nat, n: nat): (d: nat)
    requires n > 0
    ensures d < n
  {
    (c + i) % n
  }

  /** The chunk at the i-th probe. */
  function Probe(h: nat, i: nat, n: nat): (c: nat)
    requires h < n
    ensures c < n
  {
    if i == 0 then h else NextChunk(Probe(h, i - 1, n), i, n)
  }

  /** Twice the sum of the steps up to i. */
  function Steps2(i: nat): nat { if i == 0 then 0 else Steps2(i - 1) + 2 * i }

  lemma {:induction false} Steps2Is(i: nat)
    ensures Steps2(i) == i * (i + 1)
  {
    if i > 0 {
      Steps2Is(i - 1);
      assert i * (i + 1) == (i - 1) * i + 2 * i;
    }
  }

  /** Twice the distance gone is that many steps, up to whole rounds. */
  lemma {:induction false} ProbeClosed(h: nat, i: nat, n: nat) returns (q: int)
    requires h < n
    ensures 2 * h + Steps2(i) == 2 * Probe(h, i, n) + 2 * (q * n)
  {
    if i == 0 {
      q := 0;
    } else {
      var r := ProbeClosed(h, i - 1, n);
      var d := NextRound(Probe(h, i - 1, n) + i, n);
      q := r + d;
      ClosedStep(2 * h + Steps2(i - 1), Probe(h, i - 1, n), i, r, d, n, Probe(h, i, n));
    }
  }

  lemma ClosedStep(s: int, c: int, i: int, r: int, d: int, n: int, c': int)
    requires s == 2 * c + 2 * (r * n) && c + i == d * n + c'
    ensures s + 2 * i == 2 * c' + 2 * ((r + d) * n)
  {
    Distribute(r, d, n);
  }

  lemma NextRound(x: nat, n: nat) returns (d: int)
    requires n > 0
    ensures x == d * n + x % n
  {
    d := x / n;
  }

  lemma Distribute(a: int, b: int, n: int)
    ensures (a + b) * n == a * n + b * n
  {
  }

  /** If a power of two divides an odd multiple of x, it divides x. */
  lemma {:induction false} OddFactor(odd: int, x: nat, m: int, k: nat) returns (d: nat)
    requires odd % 2 == 1 && odd * x == m * Pow2(k)
    ensures x == d * Pow2(k)
    decreases k
  {
    if k == 0 {
      d := x;
    } else {
      var p := Pow2(k - 1);
      Regroup(m, p);
      EvenProduct(odd, x, m * p);
      var y := x / 2;
      assert x == 2 * y;
      assert odd * x == 2 * (odd * y);
      d := OddFactor(odd, y, m, k - 1);
      Regroup(d, p);
    }
  }

  lemma Regroup(m: int, p: int)
    ensures m * (2 * p) == 2 * (m * p)
  {
  }

  lemma EvenProduct(odd: int, x: int, z: int)
    requires odd % 2 == 1 && odd * x == 2 * z
    ensures x % 2 == 0
  {
    var h := odd / 2;
    assert odd == 2 * h + 1;
    assert (2 * h + 1) * x == 2 * (h * x) + x;
  }

  lemma MultipleIsLarge(x: nat, d: nat, p: nat)
    requires x == d * p && 0 < x && p > 0
    ensures p <= x
  {
    assert d > 0;
    assert (d - 1) * p >= 0;
    assert d * p == (d - 1) * p + p;
  }

  /** The distance between two probes is the product of an odd and an even factor below twice the size. */
  lemma Factors(i: nat, j: nat)
    requires i < j
    ensures Steps2(j) - Steps2(i) == (j - i) * (i + j + 1)
    ensures (j - i) % 2 != (i + j + 1) % 2
  {
    Steps2Is(i);
    Steps2Is(j);
    assert Steps2(j) - Steps2(i) == j * j + j - i * i - i;
    assert (j - i) * (i + j + 1) == j * j + j - i * i - i;
  }

  lemma Difference(a: int, b: int, n: int)
    ensures (a - b) * n == a * n - b * n
  {
  }

  /** If a power of two divides a product of an odd and an even number, one of them is as large. */
  lemma OneFactorIsLarge(a: nat, b: nat, m: int, k: nat)
    requires a % 2 != b % 2 && a > 0 && b > 0 && a * b == m * Pow2(k)
    ensures Pow2(k) <= a || Pow2(k) <= b
  {
    if a % 2 == 1 {
      var d := OddFactor(a, b, m, k);
      MultipleIsLarge(b, d, Pow2(k));
    } else {
      assert b * a == a * b;
      var d := OddFactor(b, a, m, k);
      MultipleIsLarge(a, d, Pow2(k));
    }
  }

  /** Two probes of the same chunk are whole rounds apart. */
  lemma SameChunkRounds(h: nat, i: nat, j: nat, n: nat) returns (m: int)
    requires h < n && i < j && Probe(h, i, n) == Probe(h, j, n)
    ensures Steps2(j) - Steps2(i) == m * (2 * n)
  {
    var q := ProbeClosed(h, i, n);
    var r := ProbeClosed(h, j, n);
    m := r - q;
    RoundsApart(Steps2(i), Steps2(j), h, Probe(h, i, n), q, r, n);
  }

  lemma RoundsApart(si: int, sj: int, h: int, c: int, q: int, r: int, n: int)
    requires 2 * h + si == 2 * c + 2 * (q * n) && 2 * h + sj == 2 * c + 2 * (r * n)
    ensures sj - si == (r - q) * (2 * n)
  {
    Difference(r, q, n);
    Regroup(r - q, n);
  }

  lemma SameChunkIsFar(h: nat, i: nat, j: nat, k: nat)
    requires h < Pow2(k) && i < j && Probe(h, i, Pow2(k)) == Probe(h, j, Pow2(k))
    ensures Pow2(k + 1) <= i + j + 1
  {
    var m := SameChunkRounds(h, i, j, Pow2(k));
    Factors(i, j);
    OneFactorIsLarge(j - i, i + j + 1, m, k + 1);
  }

  /** No chunk is met twice before all are met. */
  lemma ProbesDiffer(h: nat, i: nat, j: nat, k: nat)
    requires h < Pow2(k) && i < j < Pow2(k)
    ensures Probe(h, i, Pow2(k)) != Probe(h, j, Pow2(k))
  {
    assert i + j + 1 < Pow2(k + 1);
    if Probe(h, i, Pow2(k)) == Probe(h, j, Pow2(k)) {
      SameChunkIsFar(h, i, j, k);
    }
  }

  ghost function Visited(h: nat, i: nat, n: nat): set<nat>
    requires h < n
  {
    set j | 0 <= j < i :: Probe(h, j, n)
  }

  lemma NotVisited(h: nat, i: nat, k: nat)
    requires h < Pow2(k) && i < Pow2(k)
    ensures Probe(h, i, Pow2(k)) !in Visited(h, i, Pow2(k))
  {
    forall j | 0 <= j < i ensures Probe(h, j, Pow2(k)) != Probe(h, i, Pow2(k)) {
      ProbesDiffer(h, j, i, k);
    }
  }

  lemma {:induction false} VisitedSize(h: nat, i: nat, k: nat)
    requires h < Pow2(k) && i <= Pow2(k)
    ensures |Visited(h, i, Pow2(k))| == i
  {
    var n := Pow2(k);
    if i == 0 {
      assert Visited(h, 0, n) == {};
    } else {
      VisitedSize(h, i - 1, k);
      NotVisited(h, i - 1, k);
      assert Visited(h, i, n) == Visited(h, i - 1, n) + {Probe(h, i - 1, n)};
    }
  }

  ghost function Range(n: nat): (r: set<nat>)
    ensures |r| == n && forall c :: c in r <==> 0 <= c < n
  {
    if n == 0 then {} else Range(n - 1) + {n - 1}
  }

  lemma SubsetSame(a: set<nat>, b: set<nat>)
    requires a <= b && |a| == |b|
    ensures a == b
  {
    if x :| x in b && x !in a {
      assert a <= b - {x};
      SubsetSize(a, b - {x});
    }
  }

  lemma {:induction false} SubsetSize(a: set<nat>, b: set<nat>)
    requires a <= b
    ensures |a| <= |b|
    decreases a
  {
    if a != {} {
      var x :| x in a;
      SubsetSize(a - {x}, b - {x});
    }
  }

  /** Every chunk is met within as many probes as there are chunks. */
  lemma ProbeReaches(h: nat, c: nat, k: nat)
    requires h < Pow2(k) && c < Pow2(k)
    ensures exists i :: 0 <= i < Pow2(k) && Probe(h, i, Pow2(k)) == c
  {
    var n := Pow2(k);
    VisitedSize(h, n, k);
    SubsetSame(Visited(h, n, n), Range(n));
    assert c in Visited(h, n, n);
  }

  /** At which probe a chunk is met. */
  ghost function Depth(h: nat, c: nat, k: nat): (i: nat)
    requires h < Pow2(k) && c < Pow2(k)
    ensures i < Pow2(k) && Probe(h, i, Pow2(k)) == c
  {
    ProbeReaches(h, c, k);
    var i :| 0 <= i < Pow2(k) && Probe(h, i, Pow2(k)) == c;
    i
  }

  lemma DepthIs(h: nat, i: nat, k: nat)
    requires h < Pow2(k) && i < Pow2(k)
    ensures Depth(h, Probe(h, i, Pow2(k)), k) == i
  {
    var j := Depth(h, Probe(h, i, Pow2(k)), k);
    if i < j {
      ProbesDiffer(h, i, j, k);
    } else if j < i {
      ProbesDiffer(h, j, i, k);
    }
  }
}
