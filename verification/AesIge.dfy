/**
 * AES-IGE as pxcutils/pxc/utils/crypto.cpp builds it on CBC in batches of blocks, over any
 * permutation of blocks in place of the cipher.  The batches compute the plain recurrence of
 * IGE, and decryption undoes them.
 */
module AesIge {
  type Block = b: seq<bool> | |b| == 128 witness seq(128, _ => false)

  const BLOCK_COUNT: nat := 31

  // ----- xor

  function Xor(a: Block, b: Block): Block {
    seq(128, i requires 0 <= i < 128 => a[i] != b[i])
  }

  lemma XorTwice(a: Block, b: Block)
    ensures Xor(Xor(a, b), b) == a
  {
  }

  lemma XorSwap(a: Block, b: Block)
    ensures Xor(a, b) == Xor(b, a)
  {
  }

  /** The input of the cipher, batched and plain. */
  lemma SameInput(before: Block, x: Block, y: Block)
    ensures Xor(Xor(before, x), y) == Xor(x, Xor(y, before))
  {
  }

  // ----- the modes

  /** The cipher-block-chaining mode: each block is xored with the output before it. */
  function Cbc(e: Block -> Block, iv: Block, xs: seq<Block>): (ys: seq<Block>)
    ensures |ys| == |xs|
    decreases |xs|
  {
    if xs == [] then [] else var y := e(Xor(xs[0], iv)); [y] + Cbc(e, y, xs[1..])
  }

  /** The infinite-garble-extension mode: c is the output block before xs, and p the input block before it. */
  function Ige(e: Block -> Block, c: Block, p: Block, xs: seq<Block>): (ys: seq<Block>)
    ensures |ys| == |xs|
    decreases |xs|
  {
    if xs == [] then [] else var y := Xor(e(Xor(xs[0], c)), p); [y] + Ige(e, y, xs[0], xs[1..])
  }

  function IgeBack(d: Block -> Block, c: Block, p: Block, ys: seq<Block>): (xs: seq<Block>)
    ensures |xs| == |ys|
    decreases |ys|
  {
    if ys == [] then [] else var x := Xor(d(Xor(p, ys[0])), c); [x] + IgeBack(d, ys[0], x, ys[1..])
  }

  /** The block before the i-th one. */
  function Before(first: Block, xs: seq<Block>, i: nat): Block
    requires i <= |xs|
  {
    if i == 0 then first else xs[i - 1]
  }

  lemma {:induction false} CbcAt(e: Block -> Block, iv: Block, xs: seq<Block>, i: nat)
    requires i < |xs|
    ensures Cbc(e, iv, xs)[i] == e(Xor(xs[i], Before(iv, Cbc(e, iv, xs), i)))
    decreases i
  {
    if i > 0 { CbcAt(e, e(Xor(xs[0], iv)), xs[1..], i - 1); }
  }

  lemma {:induction false} IgeAt(e: Block -> Block, c: Block, p: Block, xs: seq<Block>, i: nat)
    requires i < |xs|
    ensures Ige(e, c, p, xs)[i] == Xor(e(Xor(xs[i], Before(c, Ige(e, c, p, xs), i))), Before(p, xs, i))
    decreases i
  {
    if i > 0 { IgeAt(e, Xor(e(Xor(xs[0], c)), p), xs[0], xs[1..], i - 1); }
  }

  /** A message may be cut anywhere when the last blocks are carried over. */
  lemma {:induction false} IgeCut(e: Block -> Block, c: Block, p: Block, xs: seq<Block>, k: nat)
    requires k <= |xs|
    ensures var ys := Ige(e, c, p, xs[..k]);
      Ige(e, c, p, xs) == ys + Ige(e, Before(c, ys, k), Before(p, xs, k), xs[k..])
    decreases k
  {
    if k > 0 {
      var y := Xor(e(Xor(xs[0], c)), p);
      assert xs[1..][..k - 1] == xs[..k][1..] && xs[1..][k - 1..] == xs[k..];
      IgeCut(e, y, xs[0], xs[1..], k - 1);
    }
  }

  ghost predicate Undoes(d: Block -> Block, e: Block -> Block) { forall x :: d(e(x)) == x }

  /** Decryption with the same vector gives the message back. */
  lemma {:induction false} IgeRoundTrip(e: Block -> Block, d: Block -> Block, c: Block, p: Block, xs: seq<Block>)
    requires Undoes(d, e)
    ensures IgeBack(d, c, p, Ige(e, c, p, xs)) == xs
    decreases |xs|
  {
    if xs != [] {
      var y := Xor(e(Xor(xs[0], c)), p);
      XorSwap(p, y);
      XorTwice(e(Xor(xs[0], c)), p);
      XorTwice(xs[0], c);
      IgeRoundTrip(e, d, y, xs[0], xs[1..]);
    }
  }

  /** And every text is the encryption of its decryption. */
  lemma {:induction false} IgeOnto(e: Block -> Block, d: Block -> Block, c: Block, p: Block, ys: seq<Block>)
    requires Undoes(e, d)
    ensures Ige(e, c, p, IgeBack(d, c, p, ys)) == ys
    decreases |ys|
  {
    if ys != [] {
      var x := Xor(d(Xor(p, ys[0])), c);
      XorTwice(d(Xor(p, ys[0])), c);
      XorSwap(p, ys[0]);
      XorTwice(ys[0], p);
      IgeOnto(e, d, ys[0], x, ys[1..]);
    }
  }

  // ----- a batch

  /** The i-th block that goes into CBC. */
  function XoredAt(p: Block, xs: seq<Block>, i: nat): Block
    requires i < |xs|
  {
    if i == 0 then xs[0] else Xor(Before(p, xs, i - 1), xs[i])
  }

  ghost predicate IsXored(p: Block, xs: seq<Block>, zs: seq<Block>) {
    |zs| == |xs| && forall i :: 0 <= i < |xs| ==> zs[i] == XoredAt(p, xs, i)
  }

  /** CBC over the prepared blocks, each output xored with the block before, is IGE. */
  lemma {:induction false} BatchAt(e: Block -> Block, c: Block, p: Block, xs: seq<Block>, zs: seq<Block>, i: nat)
    requires IsXored(p, xs, zs) && i < |xs|
    ensures Xor(Cbc(e, c, zs)[i], Before(p, xs, i)) == Ige(e, c, p, xs)[i]
    decreases i
  {
    CbcAt(e, c, zs, i);
    IgeAt(e, c, p, xs, i);
    if i > 0 {
      BatchAt(e, c, p, xs, zs, i - 1);
      SameInput(Before(p, xs, i - 1), xs[i], Cbc(e, c, zs)[i - 1]);
    }
  }

  lemma BatchIs(e: Block -> Block, c: Block, p: Block, xs: seq<Block>, zs: seq<Block>, out: seq<Block>)
    requires IsXored(p, xs, zs) && |out| == |xs|
    requires forall j :: 0 <= j < |xs| ==> out[j] == Xor(Cbc(e, c, zs)[j], Before(p, xs, j))
    ensures out == Ige(e, c, p, xs)
  {
    forall i | 0 <= i < |xs| ensures out[i] == Ige(e, c, p, xs)[i] {
      BatchAt(e, c, p, xs, zs, i);
    }
  }

  // ----- the state

  class AesIgeState {
    const e: Block -> Block
    const d: Block -> Block
    var encryptedIv: Block
    var plaintextIv: Block

    constructor (e: Block -> Block, d: Block -> Block, encryptedIv: Block, plaintextIv: Block)
      ensures this.e == e && this.d == d && this.encryptedIv == encryptedIv && this.plaintextIv == plaintextIv
    {
      this.e, this.d, this.encryptedIv, this.plaintextIv := e, d, encryptedIv, plaintextIv;
    }

    /** The blocks that go into CBC. */
    method Prepare(data: seq<Block>) returns (zs: seq<Block>)
      requires data != []
      ensures IsXored(plaintextIv, data, zs)
    {
      var count := |data|;
      var xored := new Block[count](_ => data[0]);
      if count > 1 {
        xored[1] := Xor(plaintextIv, data[1]);
        for i := 2 to count
          invariant forall j :: 0 <= j < i ==> xored[j] == XoredAt(plaintextIv, data, j)
        {
          xored[i] := Xor(data[i - 2], data[i]);
        }
      }
      zs := xored[..];
    }

    /** What comes out of CBC, xored with the blocks before. */
    method Finish(ys: seq<Block>, data: seq<Block>) returns (out: seq<Block>)
      requires data != [] && |ys| == |data|
      ensures |out| == |data| && forall j :: 0 <= j < |data| ==> out[j] == Xor(ys[j], Before(plaintextIv, data, j))
    {
      out := ys[0 := Xor(ys[0], plaintextIv)];
      for i := 1 to |data|
        invariant |out| == |data|
        invariant forall j :: 0 <= j < i ==> out[j] == Xor(ys[j], Before(plaintextIv, data, j))
        invariant forall j :: i <= j < |data| ==> out[j] == ys[j]
      {
        out := out[i := Xor(out[i], data[i - 1])];
      }
    }

    /** One batch: at least one block, and what it leaves as the vector. */
    method EncryptBatch(data: seq<Block>) returns (out: seq<Block>)
      requires data != []
      modifies `encryptedIv, `plaintextIv
      ensures out == Ige(e, old(encryptedIv), old(plaintextIv), data)
      ensures encryptedIv == out[|data| - 1] && plaintextIv == data[|data| - 1]
    {
      var zs := Prepare(data);
      var ys := Cbc(e, encryptedIv, zs);
      out := Finish(ys, data);
      BatchIs(e, encryptedIv, plaintextIv, data, zs, out);
      plaintextIv := data[|data| - 1];
      encryptedIv := out[|data| - 1];
    }

    /** encrypt, also in place: the plain recurrence, with the vector left for what follows. */
    method Encrypt(from: array<Block>, to: array<Block>)
      requires to.Length == from.Length
      modifies to, `encryptedIv, `plaintextIv
      ensures to[..] == Ige(e, old(encryptedIv), old(plaintextIv), old(from[..]))
      ensures encryptedIv == Before(old(encryptedIv), to[..], to.Length)
      ensures plaintextIv == Before(old(plaintextIv), old(from[..]), to.Length)
    {
      ghost var c, p, xs := encryptedIv, plaintextIv, from[..];
      ghost var ys := Ige(e, c, p, xs);
      var at := 0;
      while at < to.Length
        invariant at <= to.Length && Done(to[..], ys, at) && Ahead(from[..], xs, at)
        invariant encryptedIv == Before(c, ys, at) && plaintextIv == Before(p, xs, at)
      {
        at := EncryptTurn(c, p, xs, ys, from, to, at);
      }
      assert to[..] == ys;
    }

    /** One turn of the loop. */
    method EncryptTurn(ghost c: Block, ghost p: Block, ghost xs: seq<Block>, ghost ys: seq<Block>,
                       from: array<Block>, to: array<Block>, at: nat)
      returns (at': nat)
      requires to.Length == from.Length == |xs| && at < to.Length && ys == Ige(e, c, p, xs)
      requires Done(to[..], ys, at) && Ahead(from[..], xs, at)
      requires encryptedIv == Before(c, ys, at) && plaintextIv == Before(p, xs, at)
      modifies to, `encryptedIv, `plaintextIv
      ensures at < at' <= to.Length && Done(to[..], ys, at') && Ahead(from[..], xs, at')
      ensures encryptedIv == Before(c, ys, at') && plaintextIv == Before(p, xs, at')
    {
      var count := if to.Length - at < BLOCK_COUNT then to.Length - at else BLOCK_COUNT;
      var data := from[at..at + count];
      assert data == xs[at..at + count];
      var out := EncryptBatch(data);
      BatchOf(e, c, p, xs, ys, at, count, out);
      at' := at + count;
      ghost var t, f := to[..], from[..];
      CopyTo(out, to, at);
      CopiedDone(t, to[..], at, out, ys);
      if from == to { CopiedAhead(f, from[..], at, out, xs); }
    }

    /** decrypt, also in place. */
    method Decrypt(from: array<Block>, to: array<Block>)
      requires to.Length == from.Length
      modifies to, `encryptedIv, `plaintextIv
      ensures to[..] == IgeBack(d, old(encryptedIv), old(plaintextIv), old(from[..]))
      ensures encryptedIv == Before(old(encryptedIv), old(from[..]), to.Length)
      ensures plaintextIv == Before(old(plaintextIv), to[..], to.Length)
    {
      ghost var c, p, ys := encryptedIv, plaintextIv, from[..];
      ghost var xs := IgeBack(d, c, p, ys);
      var at := 0;
      while at < to.Length
        invariant at <= to.Length && (forall j :: at <= j < to.Length ==> from[j] == ys[j])
        invariant forall j :: 0 <= j < at ==> to[j] == xs[j]
        invariant encryptedIv == Before(c, ys, at) && plaintextIv == Before(p, xs, at)
      {
        var encrypted := from[at];
        IgeBackAt(d, c, p, ys, at);
        plaintextIv := Xor(plaintextIv, encrypted);
        plaintextIv := d(plaintextIv);
        plaintextIv := Xor(plaintextIv, encryptedIv);
        to[at] := plaintextIv;
        encryptedIv := encrypted;
        at := at + 1;
      }
      assert to[..] == xs;
    }
  }

  /** The batch in the middle of a message. */
  lemma BatchOf(e: Block -> Block, c: Block, p: Block, xs: seq<Block>, ys: seq<Block>, at: nat, count: nat, out: seq<Block>)
    requires at + count <= |xs| && ys == Ige(e, c, p, xs)
    requires out == Ige(e, Before(c, ys, at), Before(p, xs, at), xs[at..at + count])
    ensures |out| == count && forall j :: 0 <= j < count ==> out[j] == ys[at + j]
  {
    IgeCut(e, c, p, xs, at);
    var c', p', rest := Before(c, ys, at), Before(p, xs, at), xs[at..];
    IgeCut(e, c', p', rest, count);
    assert rest[..count] == xs[at..at + count];
    assert ys[at..] == Ige(e, c', p', rest);
    forall j | 0 <= j < count ensures out[j] == ys[at + j] {
      assert ys[at..][j] == ys[at + j];
    }
  }

  /** The first blocks of t are those of ys. */
  ghost predicate Done(t: seq<Block>, ys: seq<Block>, at: nat) {
    |t| == |ys| && at <= |t| && forall j :: 0 <= j < at ==> t[j] == ys[j]
  }

  /** The blocks from there on are still those of xs. */
  ghost predicate Ahead(t: seq<Block>, xs: seq<Block>, at: nat) {
    |t| == |xs| && forall j :: at <= j < |t| ==> t[j] == xs[j]
  }

  ghost predicate Copied(t: seq<Block>, t': seq<Block>, at: nat, out: seq<Block>) {
    |t'| == |t| && at + |out| <= |t|
    && forall j :: 0 <= j < |t| ==> t'[j] == if at <= j < at + |out| then out[j - at] else t[j]
  }

  lemma CopiedDone(t: seq<Block>, t': seq<Block>, at: nat, out: seq<Block>, ys: seq<Block>)
    requires Copied(t, t', at, out) && Done(t, ys, at) && forall j :: 0 <= j < |out| ==> out[j] == ys[at + j]
    ensures Done(t', ys, at + |out|)
  {
    forall j | at <= j < at + |out| ensures t'[j] == ys[j] {
      assert out[j - at] == ys[at + (j - at)];
    }
  }

  lemma CopiedAhead(t: seq<Block>, t': seq<Block>, at: nat, out: seq<Block>, xs: seq<Block>)
    requires Copied(t, t', at, out) && Ahead(t, xs, at)
    ensures Ahead(t', xs, at + |out|)
  {
  }

  method CopyTo(out: seq<Block>, to: array<Block>, at: nat)
    requires at + |out| <= to.Length
    modifies to
    ensures Copied(old(to[..]), to[..], at, out)
  {
    forall j | 0 <= j < |out| { to[at + j] := out[j]; }
    ghost var t := old(to[..]);
    forall j | 0 <= j < to.Length ensures to[..][j] == if at <= j < at + |out| then out[j - at] else t[j] {
      if at <= j < at + |out| { assert to[at + (j - at)] == out[j - at]; }
    }
  }

  lemma {:induction false} IgeBackAt(d: Block -> Block, c: Block, p: Block, ys: seq<Block>, i: nat)
    requires i < |ys|
    ensures var xs := IgeBack(d, c, p, ys);
      xs[i] == Xor(d(Xor(Before(p, xs, i), ys[i])), Before(c, ys, i))
    decreases i
  {
    if i > 0 { IgeBackAt(d, ys[0], Xor(d(Xor(p, ys[0])), c), ys[1..], i - 1); }
  }

  /** aes_ige_encrypt and aes_ige_decrypt with the same key and vector, in place: the message is back. */
  method EncryptDecrypt(e: Block -> Block, d: Block -> Block, encryptedIv: Block, plaintextIv: Block, message: array<Block>)
    requires Undoes(d, e)
    modifies message
    ensures message[..] == old(message[..])
  {
    var sender := new AesIgeState(e, d, encryptedIv, plaintextIv);
    sender.Encrypt(message, message);
    var receiver := new AesIgeState(e, d, encryptedIv, plaintextIv);
    receiver.Decrypt(message, message);
    IgeRoundTrip(e, d, encryptedIv, plaintextIv, old(message[..]));
  }
}
