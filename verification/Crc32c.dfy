/**
 * Combining CRC-32C values, pxcutils/pxc/utils/crypto.cpp: the CRC of a concatenation from
 * the CRCs of its parts, by a table of 32 bit matrices over GF(2), each the square of the
 * one before.  The reference is the bit-at-a-time CRC-32C of section 12.1 of RFC 3720.
 * A uint32 is used only bitwise here, and is its 32 bits, lowest first.
 */
module Crc32c {
  // ----- words under exclusive or

  const WIDTH: nat := 32

  function Same(p: bool, n: nat): (b: seq<bool>)
    ensures |b| == n && forall i :: 0 <= i < n ==> b[i] == p
  {
    seq(n, _ => p)
  }

  type Word = w: seq<bool> | |w| == WIDTH witness Same(false, WIDTH)

  type Byte = b: seq<bool> | |b| == 8 witness Same(false, 8)

  const ZERO: Word := Same(false, WIDTH)

  function Pow2(n: nat): (p: nat)
    ensures p > 0
  {
    if n == 0 then 1 else 2 * Pow2(n - 1)
  }

  predicate BitAt(x: nat, i: nat) { x / Pow2(i) % 2 == 1 }

  /** The bits of a number. */
  function Number(x: nat): Word {
    seq(WIDTH, i requires i >= 0 => BitAt(x, i))
  }

  const POLYNOMIAL: Word := Number(0x82F63B78)
  const ONES: Word := Same(true, WIDTH)

  function Xor(a: Word, b: Word): Word {
    seq(WIDTH, i requires 0 <= i < WIDTH => a[i] != b[i])
  }

  /** v >> 1 */
  function Shr(v: Word): Word { v[1..] + [false] }

  function Widen(b: Byte): Word { b + ZERO[8..] }

  function Pick(p: bool, x: Word): Word { if p then x else ZERO }

  lemma XorZero(a: Word)
    ensures Xor(a, ZERO) == a && Xor(ZERO, a) == a && Xor(a, a) == ZERO
  {
  }

  lemma XorSwap(a: Word, b: Word)
    ensures Xor(a, b) == Xor(b, a)
  {
  }

  lemma XorAssociates(a: Word, b: Word, c: Word)
    ensures Xor(a, Xor(b, c)) == Xor(Xor(a, b), c)
  {
  }

  lemma XorAround(a: Word, b: Word, x: Word)
    ensures Xor(Xor(a, b), x) == Xor(Xor(a, x), b)
  {
  }

  lemma XorRegroup(a: Word, b: Word, x: Word)
    ensures Xor(Xor(a, b), x) == Xor(b, Xor(a, x))
  {
  }

  lemma XorTwice(a: Word, b: Word)
    ensures Xor(Xor(a, b), b) == a
  {
  }

  lemma XorMix(a: Word, b: Word, c: Word, d: Word)
    ensures Xor(Xor(a, b), Xor(c, d)) == Xor(Xor(a, c), Xor(b, d))
  {
  }

  lemma PickXor(p: bool, q: bool, x: Word)
    ensures Xor(Pick(p, x), Pick(q, x)) == Pick(p != q, x)
  {
    XorZero(x);
    XorZero(ZERO);
  }

  lemma ShrXor(a: Word, b: Word)
    ensures Shr(Xor(a, b)) == Xor(Shr(a), Shr(b))
  {
  }

  /** A map of words that is linear over GF(2). */
  ghost predicate Linear(f: Word -> Word) {
    f(ZERO) == ZERO && forall x, y :: f(Xor(x, y)) == Xor(f(x), f(y))
  }

  function Iterate(f: Word -> Word, c: Word, n: nat): Word
    decreases n
  {
    if n == 0 then c else Iterate(f, f(c), n - 1)
  }

  lemma {:induction false} IterateLinear(f: Word -> Word, a: Word, b: Word, n: nat)
    requires Linear(f)
    ensures Iterate(f, Xor(a, b), n) == Xor(Iterate(f, a, n), Iterate(f, b, n))
    decreases n
  {
    if n > 0 {
      IterateLinear(f, f(a), f(b), n - 1);
    }
  }

  lemma {:induction false} IterateAdd(f: Word -> Word, c: Word, m: nat, n: nat)
    ensures Iterate(f, c, m + n) == Iterate(f, Iterate(f, c, m), n)
    decreases m
  {
    if m > 0 {
      IterateAdd(f, f(c), m - 1, n);
    }
  }

  // ----- the reference

  /** Feeding one zero bit to the register. */
  function Step(c: Word): Word { Xor(Shr(c), Pick(c[0], POLYNOMIAL)) }

  function Steps(c: Word, n: nat): Word { Iterate(Step, c, n) }

  /** Feeding bytes, each with its low bit first. */
  function Feed(c: Word, data: seq<Byte>): Word { FeedBy(Step, c, data) }

  function FeedBy(f: Word -> Word, c: Word, data: seq<Byte>): Word
    decreases |data|
  {
    if data == [] then c else FeedBy(f, Iterate(f, Xor(c, Widen(data[0])), 8), data[1..])
  }

  /** crc32c_extend(old_crc, data): the CRC continued over more bytes. */
  function Extend(oldCrc: Word, data: seq<Byte>): Word {
    Xor(Feed(Xor(oldCrc, ONES), data), ONES)
  }

  function Crc(data: seq<Byte>): Word { Extend(ZERO, data) }

  lemma StepXor(a: Word, b: Word)
    ensures Step(Xor(a, b)) == Xor(Step(a), Step(b))
  {
    ShrXor(a, b);
    XorMix(Shr(a), Pick(a[0], POLYNOMIAL), Shr(b), Pick(b[0], POLYNOMIAL));
    PickXor(a[0], b[0], POLYNOMIAL);
  }

  lemma StepLinear()
    ensures Linear(Step)
  {
    forall x: Word, y: Word ensures Step(Xor(x, y)) == Xor(Step(x), Step(y)) {
      StepXor(x, y);
    }
    assert Shr(ZERO) == ZERO;
    XorZero(ZERO);
  }

  lemma StepsAdd(c: Word, m: nat, n: nat)
    ensures Steps(c, m + n) == Steps(Steps(c, m), n)
  {
    IterateAdd(Step, c, m, n);
  }

  /** A change of the register spreads through the data as through zero bits. */
  lemma {:induction false} FeedAffine(f: Word -> Word, c: Word, d: Word, data: seq<Byte>)
    requires Linear(f)
    ensures FeedBy(f, Xor(c, d), data) == Xor(FeedBy(f, c, data), Iterate(f, d, 8 * |data|))
    decreases |data|
  {
    if data != [] {
      var b := Widen(data[0]);
      XorAround(c, d, b);
      IterateLinear(f, Xor(c, b), d, 8);
      FeedAffine(f, Iterate(f, Xor(c, b), 8), Iterate(f, d, 8), data[1..]);
      IterateAdd(f, d, 8, 8 * (|data| - 1));
      assert 8 * |data| == 8 + 8 * (|data| - 1);
    }
  }

  /** The CRC of a continuation, from the CRC of the new bytes alone and their number. */
  lemma CombinationLaw(oldCrc: Word, data: seq<Byte>)
    ensures Extend(oldCrc, data) == Xor(Steps(oldCrc, 8 * |data|), Crc(data))
  {
    FeedFrom(oldCrc, data);
    var fed, zeros := Feed(ONES, data), Steps(oldCrc, 8 * |data|);
    assert Crc(data) == Xor(fed, ONES) by { XorZero(ONES); }
    XorRegroup(fed, zeros, ONES);
  }

  lemma FeedFrom(c: Word, data: seq<Byte>)
    ensures Feed(Xor(c, ONES), data) == Xor(Feed(ONES, data), Steps(c, 8 * |data|))
  {
    XorSwap(c, ONES);
    StepLinear();
    FeedAffine(Step, ONES, c, data);
  }

  lemma {:induction false} FeedConcat(f: Word -> Word, c: Word, x: seq<Byte>, y: seq<Byte>)
    ensures FeedBy(f, c, x + y) == FeedBy(f, FeedBy(f, c, x), y)
    decreases |x|
  {
    if x == [] {
      assert x + y == y;
    } else {
      assert (x + y)[1..] == x[1..] + y;
      FeedConcat(f, Iterate(f, Xor(c, Widen(x[0])), 8), x[1..], y);
    }
  }

  /** Extending the CRC of x by y gives the CRC of the concatenation. */
  lemma ExtendIsConcat(x: seq<Byte>, y: seq<Byte>)
    ensures Extend(Crc(x), y) == Crc(x + y)
  {
    FeedConcat(Step, Xor(ZERO, ONES), x, y);
    XorTwice(Feed(Xor(ZERO, ONES), x), ONES);
  }

  // ----- matrices over GF(2)

  /** The sum of the columns that the bits select. */
  function Sum(m: seq<Word>, bits: seq<bool>): Word
    requires |m| == |bits|
    decreases |m|
  {
    if m == [] then ZERO else Xor(Pick(bits[0], m[0]), Sum(m[1..], bits[1..]))
  }

  function Times(m: seq<Word>, v: Word): Word
    requires |m| == WIDTH
  {
    Sum(m, v)
  }

  function XorBits(x: seq<bool>, y: seq<bool>): (z: seq<bool>)
    requires |x| == |y|
    ensures |z| == |x|
  {
    seq(|x|, i requires 0 <= i < |x| => x[i] != y[i])
  }

  lemma {:induction false} SumXor(m: seq<Word>, x: seq<bool>, y: seq<bool>)
    requires |m| == |x| == |y|
    ensures Sum(m, XorBits(x, y)) == Xor(Sum(m, x), Sum(m, y))
    decreases |m|
  {
    if m == [] {
      XorZero(ZERO);
    } else {
      assert XorBits(x, y)[1..] == XorBits(x[1..], y[1..]);
      SumXor(m[1..], x[1..], y[1..]);
      XorMix(Pick(x[0], m[0]), Sum(m[1..], x[1..]), Pick(y[0], m[0]), Sum(m[1..], y[1..]));
      PickXor(x[0], y[0], m[0]);
    }
  }

  lemma {:induction false} SumNone(m: seq<Word>, bits: seq<bool>)
    requires |m| == |bits| && forall i :: 0 <= i < |bits| ==> !bits[i]
    ensures Sum(m, bits) == ZERO
    decreases |m|
  {
    if m != [] {
      SumNone(m[1..], bits[1..]);
      XorZero(ZERO);
    }
  }

  ghost function By(m: seq<Word>): Word -> Word
    requires |m| == WIDTH
  {
    v => Times(m, v)
  }

  lemma TimesLinear(m: seq<Word>)
    requires |m| == WIDTH
    ensures Linear(By(m))
  {
    forall a: Word, b: Word ensures Times(m, Xor(a, b)) == Xor(Times(m, a), Times(m, b)) {
      assert Xor(a, b) == XorBits(a, b);
      SumXor(m, a, b);
    }
    SumNone(m, ZERO);
  }

  ghost function Images(f: Word -> Word, cols: seq<Word>): (s: seq<Word>)
    ensures |s| == |cols| && forall i :: 0 <= i < |cols| ==> s[i] == f(cols[i])
  {
    seq(|cols|, i requires 0 <= i < |cols| => f(cols[i]))
  }

  /** gf32_matrix_square: the images of the columns. */
  ghost function Square(m: seq<Word>): (s: seq<Word>)
    requires |m| == WIDTH
    ensures |s| == |m| && forall i :: 0 <= i < |m| ==> s[i] == Times(m, m[i])
  {
    Images(By(m), m)
  }

  lemma {:induction false} ImagesSum(f: Word -> Word, cols: seq<Word>, bits: seq<bool>)
    requires Linear(f) && |cols| == |bits|
    ensures Sum(Images(f, cols), bits) == f(Sum(cols, bits))
    decreases |cols|
  {
    if cols != [] {
      assert Images(f, cols)[1..] == Images(f, cols[1..]);
      ImagesSum(f, cols[1..], bits[1..]);
      assert f(Pick(bits[0], cols[0])) == Pick(bits[0], f(cols[0]));
    }
  }

  /** Squaring is composing the matrix with itself. */
  lemma SquareTwice(m: seq<Word>, v: Word)
    requires |m| == WIDTH
    ensures Times(Square(m), v) == Times(m, Times(m, v))
  {
    TimesLinear(m);
    ImagesSum(By(m), m, v);
  }

  // ----- the table of powers

  /** 1u << n */
  function Bit(n: nat): Word {
    seq(WIDTH, i => i == n)
  }

  ghost function Row0(): (m: seq<Word>)
    ensures |m| == WIDTH && m[0] == POLYNOMIAL && forall i :: 0 < i < WIDTH ==> m[i] == Bit(i - 1)
  {
    seq(WIDTH, i requires 0 <= i < WIDTH => if i == 0 then POLYNOMIAL else Bit(i - 1))
  }

  /** Columns that are the bits k, k + 1 and so on move the selecting bits up by k. */
  lemma {:induction false} UnitsSum(m: seq<Word>, bits: seq<bool>, k: nat, i: nat)
    requires |m| == |bits| && k + |m| <= WIDTH && i < WIDTH
    requires forall j :: 0 <= j < |m| ==> m[j] == Bit(k + j)
    ensures Sum(m, bits)[i] == (k <= i < k + |m| && bits[i - k])
    decreases |m|
  {
    if m != [] {
      UnitsSum(m[1..], bits[1..], k + 1, i);
    }
  }

  lemma UnitsShift(v: Word)
    ensures Sum(Row0()[1..], v[1..]) == Shr(v)
  {
    var rest := Sum(Row0()[1..], v[1..]);
    forall i | 0 <= i < WIDTH ensures rest[i] == Shr(v)[i] {
      UnitsAt(v, i);
    }
  }

  lemma UnitsAt(v: Word, i: nat)
    requires i < WIDTH
    ensures Sum(Row0()[1..], v[1..])[i] == Shr(v)[i]
  {
    UnitsSum(Row0()[1..], v[1..], 0, i);
  }

  lemma Row0IsStep(v: Word)
    ensures Times(Row0(), v) == Step(v)
  {
    UnitsShift(v);
    XorSwap(Shr(v), Pick(v[0], POLYNOMIAL));
  }

  ghost function Row(n: nat): (m: seq<Word>)
    ensures |m| == WIDTH
  {
    if n == 0 then Row0() else Square(Row(n - 1))
  }

  /** Row n of the table is 2^n zero bits. */
  lemma {:induction false} RowIsSteps(n: nat, v: Word)
    ensures Times(Row(n), v) == Steps(v, Pow2(n))
    decreases n
  {
    if n == 0 {
      Row0IsStep(v);
      assert Iterate(Step, v, 1) == Iterate(Step, Step(v), 0);
    } else {
      var half := Pow2(n - 1);
      SquareTwice(Row(n - 1), v);
      RowIsSteps(n - 1, v);
      RowIsSteps(n - 1, Steps(v, half));
      StepsAdd(v, half, half);
    }
  }

  // ----- the code

  /** gf32_matrix_times of the matrix that begins at buf[matrix]. */
  method MatrixTimes(buf: array<Word>, matrix: nat, vector: Word) returns (sum: Word)
    requires matrix + WIDTH <= buf.Length
    ensures sum == Times(buf[matrix..matrix + WIDTH], vector)
  {
    sum := ZERO;
    var v, p := vector, matrix;
    ghost var m, k := buf[matrix..matrix + WIDTH], 0;
    SumStarts(m, vector);
    while v != ZERO
      invariant k <= WIDTH && p == matrix + k && Summed(m, vector, sum, v, k)
      decreases WIDTH - k
    {
      SumTurn(m, vector, sum, v, k);
      assert buf[p] == m[k];
      if v[0] {
        sum := Xor(sum, buf[p]);
      }
      v := Shr(v);
      p, k := p + 1, k + 1;
    }
    SumEnds(m, vector, sum, k);
  }

  /** The loop has added the columns of the first k bits of w, and v holds the others. */
  ghost predicate Summed(m: seq<Word>, w: Word, sum: Word, v: Word, k: nat) {
    var all := |m| == WIDTH && ShiftedBy(v, w, k) && Times(m, w) == Xor(sum, Sum(m[k..], w[k..]));
    all
  }

  lemma SumStarts(m: seq<Word>, w: Word)
    requires |m| == WIDTH
    ensures Summed(m, w, ZERO, w, 0)
  {
    XorZero(Sum(m, w));
    assert m[0..] == m && w[0..] == w && w + Same(false, 0) == w;
  }

  lemma SumTurn(m: seq<Word>, w: Word, sum: Word, v: Word, k: nat)
    requires Summed(m, w, sum, v, k) && v != ZERO
    ensures k < WIDTH == |m| && Summed(m, w, if v[0] then Xor(sum, m[k]) else sum, Shr(v), k + 1)
  {
    ShiftedBit(v, w, k);
    SumOne(sum, m, w, k);
  }

  lemma SumEnds(m: seq<Word>, w: Word, sum: Word, k: nat)
    requires Summed(m, w, sum, ZERO, k)
    ensures |m| == WIDTH && sum == Times(m, w)
  {
    NothingLeft(sum, m, w, k);
  }

  lemma NothingLeft(sum: Word, m: seq<Word>, vector: Word, k: nat)
    requires |m| == WIDTH && ShiftedBy(ZERO, vector, k)
    ensures Xor(sum, Sum(m[k..], vector[k..])) == sum
  {
    ShiftedOut(vector, k);
    SumNone(m[k..], vector[k..]);
    XorZero(sum);
  }

  /** v is w shifted right by k. */
  ghost predicate ShiftedBy(v: Word, w: Word, k: nat) {
    k <= WIDTH && v == w[k..] + Same(false, k)
  }

  lemma ShiftedBit(v: Word, w: Word, k: nat)
    requires ShiftedBy(v, w, k) && v != ZERO
    ensures k < WIDTH && v[0] == w[k] == w[k..][0] && w[k..][1..] == w[k + 1..] && ShiftedBy(Shr(v), w, k + 1)
  {
    assert k == WIDTH ==> v == Same(false, WIDTH);
  }

  lemma ShiftedOut(w: Word, k: nat)
    requires ShiftedBy(ZERO, w, k)
    ensures forall i :: 0 <= i < WIDTH - k ==> !w[k..][i]
  {
    forall i | 0 <= i < WIDTH - k ensures !w[k..][i] {
      assert ZERO[i] == w[k..][i];
    }
  }

  lemma SumOne(sum: Word, m: seq<Word>, bits: seq<bool>, k: nat)
    requires k < |m| == |bits|
    ensures Xor(sum, Sum(m[k..], bits[k..])) == Xor(if bits[k] then Xor(sum, m[k]) else sum, Sum(m[k + 1..], bits[k + 1..]))
  {
    XorZero(sum);
    assert m[k..][1..] == m[k + 1..] && bits[k..][1..] == bits[k + 1..];
    XorAssociates(sum, Pick(bits[k], m[k]), Sum(m[k + 1..], bits[k + 1..]));
  }

  /** gf32_matrix_square from buf[matrix] to the 32 words from buf[square] on. */
  method MatrixSquare(buf: array<Word>, square: nat, matrix: nat)
    requires matrix + WIDTH <= square && square + WIDTH <= buf.Length
    modifies buf
    ensures buf[square..square + WIDTH] == Square(old(buf[matrix..matrix + WIDTH]))
    ensures forall i :: 0 <= i < square ==> buf[i] == old(buf[i])
  {
    ghost var m := buf[matrix..matrix + WIDTH];
    for n := 0 to WIDTH
      invariant forall i :: 0 <= i < square ==> buf[i] == old(buf[i])
      invariant forall i :: 0 <= i < n ==> buf[square + i] == Times(m, m[i])
    {
      assert buf[matrix..matrix + WIDTH] == m && buf[matrix + n] == m[n];
      buf[square + n] := MatrixTimes(buf, matrix, buf[matrix + n]);
    }
    assert buf[square..square + WIDTH] == Square(m);
  }

  ghost predicate RowAt(buf: seq<Word>, n: nat) {
    WIDTH * n + WIDTH <= |buf| && buf[WIDTH * n..WIDTH * n + WIDTH] == Row(n)
  }

  /** The table holds all 32 rows. */
  ghost predicate HoldsRows(buf: seq<Word>) { forall n :: 0 <= n < 32 ==> RowAt(buf, n) }

  /** The initializer of power_buf. */
  method BuildPowers() returns (buf: array<Word>)
    ensures fresh(buf) && buf.Length == 1024
    ensures HoldsRows(buf[..])
  {
    buf := BuildFirst();
    for n := 1 to 32
      invariant forall i :: 0 <= i < n ==> RowAt(buf[..], i)
    {
      BuildRow(buf, n);
    }
  }

  method BuildFirst() returns (buf: array<Word>)
    ensures fresh(buf) && buf.Length == 1024 && RowAt(buf[..], 0)
  {
    buf := new Word[1024](_ => ZERO);
    buf[0] := POLYNOMIAL;
    for n := 0 to 31
      invariant buf[0] == POLYNOMIAL && forall i :: 0 < i <= n ==> buf[i] == Bit(i - 1)
    {
      buf[n + 1] := Bit(n);
    }
    assert buf[..][0..32] == Row0();
  }

  method BuildRow(buf: array<Word>, n: nat)
    requires buf.Length == 1024 && 1 <= n < 32 && forall i :: 0 <= i < n ==> RowAt(buf[..], i)
    modifies buf
    ensures forall i :: 0 <= i < n + 1 ==> RowAt(buf[..], i)
  {
    ghost var was := buf[..];
    assert RowAt(was, n - 1);
    assert buf[32 * (n - 1)..32 * (n - 1) + 32] == was[32 * (n - 1)..32 * (n - 1) + 32];
    MatrixSquare(buf, 32 * n, 32 * (n - 1));
    forall i | 0 <= i < n + 1 ensures RowAt(buf[..], i) {
      if i < n {
        assert RowAt(was, i);
        assert buf[..][32 * i..32 * i + 32] == was[32 * i..32 * i + 32];
      } else {
        assert buf[..][32 * i..32 * i + 32] == buf[32 * n..32 * n + 32];
      }
    }
  }

  /**
   * crc32c_extend(old_crc, data_crc, data_size): for less than 2^29 bytes the combination of
   * CRCs is the CRC of the continuation.
   */
  method Combine(powerBuf: array<Word>, oldCrc: Word, dataCrc: Word, dataSize: nat) returns (crc: Word)
    requires powerBuf.Length == 1024 && HoldsRows(powerBuf[..])
    requires dataSize < 0x2000_0000
    ensures forall data: seq<Byte> :: |data| == dataSize && Crc(data) == dataCrc ==> crc == Extend(oldCrc, data)
  {
    if dataSize == 0 {
      XorTwice(oldCrc, ONES);
      return oldCrc;
    }
    var shifted := Shift(powerBuf, oldCrc, dataSize);
    crc := Xor(shifted, dataCrc);
    forall data: seq<Byte> | |data| == dataSize && Crc(data) == dataCrc ensures crc == Extend(oldCrc, data) {
      CombinationLaw(oldCrc, data);
    }
  }

  /** The zero bits that are still to run. */
  ghost function Left(size: nat, r: nat): nat { size * Pow2(r) }

  lemma LeftEnds(size: nat, r: nat)
    ensures Left(size, 3) == 8 * size && Left(0, r) == 0
  {
    assert Pow2(3) == 8;
  }

  /** What is left of the size is to be run from row r on. */
  ghost predicate ToRun(oldCrc: Word, dataSize: nat, crc: Word, size: nat, r: nat) {
    var all := 3 <= r < 32 && 0 < size < Pow2(32 - r) && Steps(oldCrc, 8 * dataSize) == Steps(crc, Left(size, r));
    all
  }

  /** The loop: one matrix for every bit of the size, from row 3 on, which is one byte. */
  method Shift(powerBuf: array<Word>, oldCrc: Word, dataSize: nat) returns (crc: Word)
    requires powerBuf.Length == 1024 && HoldsRows(powerBuf[..])
    requires 0 < dataSize < 0x2000_0000
    ensures crc == Steps(oldCrc, 8 * dataSize)
  {
    Pow2Of29();
    LeftEnds(dataSize, 3);
    crc := oldCrc;
    var size, p := dataSize, 64;
    ghost var r := 3;
    while true
      invariant p == 32 * (r - 1) && ToRun(oldCrc, dataSize, crc, size, r)
      decreases size
    {
      p := p + 32;
      crc, size := ShiftTurn(powerBuf, oldCrc, dataSize, crc, size, p, r);
      if size == 0 {
        return;
      }
      r := r + 1;
    }
  }

  /** One turn of the loop. */
  method ShiftTurn(powerBuf: array<Word>, ghost oldCrc: Word, ghost dataSize: nat, crc: Word, size: nat, p: nat, ghost r: nat)
    returns (crc': Word, size': nat)
    requires powerBuf.Length == 1024 && HoldsRows(powerBuf[..])
    requires p == 32 * r && ToRun(oldCrc, dataSize, crc, size, r)
    ensures size' < size
    ensures if size' == 0 then crc' == Steps(oldCrc, 8 * dataSize) else ToRun(oldCrc, dataSize, crc', size', r + 1)
  {
    crc' := ShiftBit(powerBuf, crc, size, p, r);
    size' := size / 2;
    if size' == 0 {
      LeftEnds(0, r + 1);
    } else {
      HalfFits(size', r);
    }
  }

  /** One turn: the low bit of the size decides whether row r is applied. */
  method ShiftBit(powerBuf: array<Word>, c: Word, size: nat, p: nat, ghost r: nat) returns (crc: Word)
    requires r < 32 && p == 32 * r && powerBuf.Length == 1024 && HoldsRows(powerBuf[..])
    ensures Steps(c, Left(size, r)) == Steps(crc, Left(size / 2, r + 1))
  {
    assert RowAt(powerBuf[..], r);
    crc := c;
    SplitSize(size, r);
    if size % 2 == 1 {
      assert powerBuf[p..p + 32] == powerBuf[..][32 * r..32 * r + 32];
      RowSteps(c, size, r);
      crc := MatrixTimes(powerBuf, p, c);
    }
  }

  lemma RowSteps(c: Word, size: nat, r: nat)
    requires size % 2 == 1
    ensures Steps(c, size * Pow2(r)) == Steps(Times(Row(r), c), (size / 2) * Pow2(r + 1))
  {
    SplitSize(size, r);
    RowThen(c, r, (size / 2) * Pow2(r + 1));
  }

  lemma RowThen(c: Word, r: nat, rest: nat)
    ensures Steps(c, rest + Pow2(r)) == Steps(Times(Row(r), c), rest)
  {
    RowIsSteps(r, c);
    StepsAdd(c, Pow2(r), rest);
  }

  lemma Pow2Of29()
    ensures Pow2(29) == 0x2000_0000
  {
    assert Pow2(10) == 1024;
    assert Pow2(20) == 1024 * Pow2(10);
  }

  lemma SplitSize(size: nat, r: nat)
    ensures size * Pow2(r) == (size / 2) * Pow2(r + 1) + (if size % 2 == 1 then Pow2(r) else 0)
  {
    var h := size / 2;
    assert Pow2(r + 1) == 2 * Pow2(r);
    assert h * Pow2(r + 1) == (2 * h) * Pow2(r);
    assert size == 2 * h + size % 2;
    assert size * Pow2(r) == (2 * h) * Pow2(r) + (size % 2) * Pow2(r);
  }

  lemma HalfFits(half: nat, r: nat)
    requires r < 32 && 0 < 2 * half < Pow2(32 - r)
    ensures r + 1 < 32 && half < Pow2(32 - (r + 1))
  {
    assert Pow2(32 - r) == 2 * Pow2(31 - r);
  }

  // ----- how far the table reaches

  /** The last row that the loop reads. */
  function LastRow(size: nat): nat {
    if size <= 1 then 3 else LastRow(size / 2) + 1
  }

  lemma {:induction false} LastRowBound(size: nat, n: nat)
    requires size > 0
    ensures LastRow(size) < 3 + n <==> n > 0 && size < Pow2(n)
  {
    if size > 1 && n > 0 {
      LastRowBound(size / 2, n - 1);
    }
  }

  /** The loop stays inside the table of 32 rows exactly for less than 2^29 bytes. */
  lemma TableReach(size: nat)
    requires size > 0
    ensures LastRow(size) < 32 <==> size < 0x2000_0000
  {
    LastRowBound(size, 29);
    Pow2Of29();
  }

  // ----- the constant

  /** The lowest n bits of x in reverse, behind those of acc. */
  function Reversed(x: nat, n: nat, acc: nat): nat
    decreases n
  {
    if n == 0 then acc else Reversed(x / 2, n - 1, 2 * acc + x % 2)
  }

  lemma HalfTwice(x: nat, p: nat)
    requires p > 0
    ensures x / (2 * p) == x / 2 / p
  {
    var q, r := x / 2 / p, x / 2 % p;
    assert x == 2 * (q * p + r) + x % 2;
    assert x == q * (2 * p) + (2 * r + x % 2) && 0 <= 2 * r + x % 2 < 2 * p;
    QuotientIs(x, 2 * p, q, 2 * r + x % 2);
  }

  lemma QuotientIs(x: nat, d: nat, q: nat, r: nat)
    requires d > 0 && x == q * d + r && r < d
    ensures x / d == q
  {
    var e := x / d - q;
    assert e * d == r - x % d by { assert (x / d) * d == x - x % d && (x / d) * d - q * d == e * d; }
    if e != 0 { MultipleIsFar(e, d); }
  }

  lemma MultipleIsFar(e: int, d: int)
    requires e != 0 && d > 0
    ensures e * d >= d || e * d <= -d
  {
    if e >= 1 { assert (e - 1) * d >= 0; } else { assert (-1 - e) * d >= 0; }
  }

  lemma BitOfHalf(x: nat, i: nat)
    ensures BitAt(x, 0) == (x % 2 == 1) && BitAt(x, i + 1) == BitAt(x / 2, i)
  {
    assert Pow2(0) == 1 && Pow2(i + 1) == 2 * Pow2(i);
    HalfTwice(x, Pow2(i));
  }

  lemma {:induction false} ReversedBits(x: nat, n: nat, acc: nat, k: nat)
    ensures if k < n then BitAt(Reversed(x, n, acc), n - 1 - k) == BitAt(x, k) else BitAt(Reversed(x, n, acc), k) == BitAt(acc, k - n)
    decreases n
  {
    if n > 0 {
      var acc' := 2 * acc + x % 2;
      assert acc' / 2 == acc && acc' % 2 == x % 2;
      BitOfHalf(x, 0);
      BitOfHalf(acc', if k >= n then k - n else 0);
      if k == 0 {
        ReversedBits(x / 2, n - 1, acc', n - 1);
      } else if k < n {
        ReversedBits(x / 2, n - 1, acc', k - 1);
        BitOfHalf(x, k - 1);
      } else {
        ReversedBits(x / 2, n - 1, acc', k);
      }
    }
  }

  lemma TwoTurns(x: nat, n: nat, acc: nat, y: nat, b: nat, acc': nat)
    requires n >= 2 && x == 4 * y + b && b < 4 && acc' == 4 * acc + (b % 2 * 2 + b / 2)
    ensures Reversed(x, n, acc) == Reversed(y, n - 2, acc')
  {
    var h := x / 2;
    assert h / 2 == y && x % 2 == b % 2 && h % 2 == b / 2;
    assert Reversed(x, n, acc) == Reversed(h, n - 1, 2 * acc + x % 2);
  }

  lemma FourTurns(x: nat, n: nat, acc: nat, y: nat, b: nat, acc': nat)
    requires n >= 4 && x == 16 * y + b && b < 16 && acc' == 16 * acc + (b % 2 * 8 + b / 2 % 2 * 4 + b / 4 % 2 * 2 + b / 8)
    ensures Reversed(x, n, acc) == Reversed(y, n - 4, acc')
  {
    var q, mid := 4 * y + b / 4, 4 * acc + (b % 2 * 2 + b / 2 % 2);
    TwoTurns(x, n, acc, q, b % 4, mid);
    TwoTurns(q, n - 2, mid, y, b / 4, acc');
  }

  /** Digit by digit: xs are what is left to reverse, and accs what is reversed. */
  lemma {:induction false} DigitsTurned(xs: seq<nat>, accs: seq<nat>, n: nat, k: nat)
    requires |xs| == |accs| > k && n == 4 * (|xs| - 1 - k)
    requires forall i :: 0 <= i < |xs| - 1 ==> DigitTurned(xs[i], accs[i], xs[i + 1], accs[i + 1])
    ensures Reversed(xs[k], n, accs[k]) == accs[|xs| - 1]
    decreases n
  {
    if k < |xs| - 1 {
      assert DigitTurned(xs[k], accs[k], xs[k + 1], accs[k + 1]);
      FourTurns(xs[k], n, accs[k], xs[k + 1], xs[k] - 16 * xs[k + 1], accs[k + 1]);
      DigitsTurned(xs, accs, n - 4, k + 1);
    }
  }

  predicate DigitTurned(x: nat, acc: nat, y: nat, acc': nat) {
    var b := x - 16 * y;
    0 <= b < 16 && acc' == 16 * acc + (b % 2 * 8 + b / 2 % 2 * 4 + b / 4 % 2 * 2 + b / 8)
  }

  lemma PolynomialTurned()
    ensures Reversed(0x82F63B78, 32, 0) == 0x1EDC6F41
  {
    var xs: seq<nat> := [0x82F63B78, 0x82F63B7, 0x82F63B, 0x82F63, 0x82F6, 0x82F, 0x82, 8, 0];
    var accs: seq<nat> := [0, 1, 0x1E, 0x1ED, 0x1EDC, 0x1EDC6, 0x1EDC6F, 0x1EDC6F4, 0x1EDC6F41];
    DigitsTurned(xs, accs, 32, 0);
  }

  /** The bits of the polynomial are those of section 12.1 of RFC 3720, 0x11EDC6F41 without its highest, in reverse. */
  lemma PolynomialReversed(i: nat)
    requires i < WIDTH
    ensures POLYNOMIAL[i] == BitAt(0x1EDC6F41, WIDTH - 1 - i)
  {
    PolynomialTurned();
    ReversedBits(0x82F63B78, 32, 0, i);
  }
}
