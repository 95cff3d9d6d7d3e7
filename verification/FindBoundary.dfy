/**
 * find_boundary of pxcutils/pxc/utils/find_boundary.cpp over the readers of pxcutils/pxc/utils/buffer.h:
 * it finds the first occurrence whatever the cuts between the nodes, also when it is called again
 * with what it has already read after more bytes came.
 */
module FindBoundary {
  type Byte = b: nat | b < 256

  type Text = seq<Byte>

  const MAX_BOUNDARY_LENGTH: nat := 74

  function Min(a: nat, b: nat): nat { if a < b then a else b }

  // ----- texts in pieces

  function Joined(ps: seq<Text>): Text { if ps == [] then [] else ps[0] + Joined(ps[1..]) }

  /** Dropping k bytes of the first piece drops k bytes of the text. */
  lemma DropFront(ps: seq<Text>, k: nat)
    requires ps != [] && k <= |ps[0]|
    ensures k <= |Joined(ps)| && Joined([ps[0][k..]] + ps[1..]) == Joined(ps)[k..] && Joined(ps)[..k] == ps[0][..k]
  {
    assert ([ps[0][k..]] + ps[1..])[1..] == ps[1..];
  }

  lemma Cut(t: Text, i: nat, k: nat, n: nat)
    requires i + k <= n <= |t|
    ensures t[i..][k..] == t[i + k..] && t[i..][..k] == t[i..i + k] && t[..n][i + k..] == t[i + k..n]
  {
  }

  /** memchr: the first place of the byte, or the size. */
  function FirstAt(s: Text, c: Byte): (n: nat)
    ensures n <= |s| && (forall i :: 0 <= i < n ==> s[i] != c) && (n < |s| ==> s[n] == c)
  {
    if s == [] || s[0] == c then 0 else 1 + FirstAt(s[1..], c)
  }

  // ----- where the boundary is

  predicate StartsAt(t: Text, b: Text, j: nat) { j + |b| <= |t| && t[j..j + |b|] == b }

  /** The bytes from j on agree with the boundary as far as both go. */
  predicate CanStart(t: Text, b: Text, j: nat) { forall i :: 0 <= i < |b| && j + i < |t| ==> t[j + i] == b[i] }

  /** Whatever follows the text, the boundary starts nowhere between the two places. */
  ghost predicate NoneBetween(t: Text, b: Text, from: nat, n: nat) {
    from <= n <= |t| && forall j :: from <= j < n ==> !CanStart(t, b, j)
  }

  /** The answer of find_boundary from a place on, and where it stopped. */
  ghost predicate Answer(t: Text, b: Text, from: nat, found: bool, n: nat) {
    && NoneBetween(t, b, from, n)
    && if found then StartsAt(t, b, n) else forall j: nat :: from <= j ==> !StartsAt(t, b, j)
  }

  lemma StartsCan(t: Text, b: Text, j: nat)
    requires StartsAt(t, b, j)
    ensures CanStart(t, b, j)
  {
    forall i | 0 <= i < |b| && j + i < |t| ensures t[j + i] == b[i] {
      assert t[j..j + |b|][i] == b[i];
    }
  }

  /** What was ruled out stays ruled out when more bytes come. */
  lemma NoneBetweenGrows(t: Text, t': Text, b: Text, from: nat, n: nat)
    requires NoneBetween(t, b, from, n) && t <= t'
    ensures NoneBetween(t', b, from, n)
  {
    forall j | from <= j < n ensures !CanStart(t', b, j) {
      assert !CanStart(t, b, j);
      var i :| 0 <= i < |b| && j + i < |t| && t[j + i] != b[i];
      assert t'[j + i] == t[j + i];
    }
  }

  lemma Differs(t: Text, b: Text, n: nat)
    requires n + |b| <= |t| && CanStart(t, b, n)
    ensures t[n..n + |b|] == b
  {
  }

  lemma SkipOne(t: Text, b: Text, from: nat, n: nat)
    requires NoneBetween(t, b, from, n) && n + |b| <= |t| && t[n..n + |b|] != b && b != []
    ensures NoneBetween(t, b, from, n + 1)
  {
    if CanStart(t, b, n) { Differs(t, b, n); }
  }

  lemma SkipOthers(t: Text, b: Text, from: nat, n: nat, k: nat)
    requires NoneBetween(t, b, from, n) && n + k <= |t| && b != []
    requires forall i :: 0 <= i < k ==> t[n..][i] != b[0]
    ensures NoneBetween(t, b, from, n + k)
  {
    forall j | from <= j < n + k ensures !CanStart(t, b, j) {
      if j >= n {
        assert t[n..][j - n] == t[j];
        assert t[j + 0] != b[0];
      }
    }
  }

  /** Too little is left for the boundary. */
  lemma TooShort(t: Text, b: Text, from: nat, n: nat)
    requires NoneBetween(t, b, from, n) && |t| < n + |b|
    ensures Answer(t, b, from, false, n)
  {
    forall j: nat | from <= j ensures !StartsAt(t, b, j) {
      if StartsAt(t, b, j) { StartsCan(t, b, j); }
    }
  }

  // ----- the reader

  /** ChainBufferReader: the bytes of the nodes from its begin on, and how many of them it has. */
  class Range {
    var pieces: seq<Text>
    var size: nat

    ghost predicate Valid()
      reads this
    {
      size <= |Joined(pieces)|
    }

    ghost function Contents(): Text
      reads this
      requires Valid()
    {
      Joined(pieces)[..size]
    }

    constructor (pieces: seq<Text>, size: nat)
      requires size <= |Joined(pieces)|
      ensures Valid() && this.pieces == pieces && this.size == size
    {
      this.pieces := pieces;
      this.size := size;
    }

    method Clone() returns (r: Range)
      requires Valid()
      ensures fresh(r) && r.Valid() && r.Contents() == Contents()
    {
      r := new Range(pieces, size);
    }

    /** ChainBufferIterator::prepare_read: nodes without unread bytes are left. */
    method PrepareHead() returns (ready: Text)
      modifies `pieces
      ensures Joined(pieces) == old(Joined(pieces))
      ensures ready == if pieces == [] then [] else pieces[0]
      ensures pieces != [] ==> ready != []
    {
      while pieces != [] && pieces[0] == []
        invariant Joined(pieces) == old(Joined(pieces))
        decreases |pieces|
      {
        assert [] + Joined(pieces[1..]) == Joined(pieces[1..]);
        pieces := pieces[1..];
      }
      ready := if pieces == [] then [] else pieces[0];
    }

    method PrepareRead() returns (ready: Text)
      requires Valid()
      modifies `pieces
      ensures Valid() && Contents() == old(Contents())
      ensures ready <= Contents() && (Contents() != [] ==> ready != [])
    {
      ready := PrepareHead();
      if pieces != [] { DropFront(pieces, Min(|ready|, size)); }
      ready := ready[..Min(|ready|, size)];
    }

    /** ChainBufferIterator::confirm_read */
    method ConfirmRead(k: nat)
      requires Valid() && pieces != [] && k <= |pieces[0]| && k <= size
      modifies this
      ensures Valid() && k <= |old(Joined(pieces))|
      ensures Joined(pieces) == old(Joined(pieces))[k..] && size == old(size) - k
    {
      DropFront(pieces, k);
      pieces := [pieces[0][k..]] + pieces[1..];
      size := size - k;
    }

    /** advance: skips bytes, and copies as many of them as there is room for. */
    method Advance(offset: nat, dest: array<Byte>) returns (skipped: nat)
      requires Valid() && offset <= size
      modifies this, dest
      ensures Valid() && skipped == offset
      ensures Contents() == old(Contents())[offset..]
      ensures dest[..Min(offset, dest.Length)] == old(Contents())[..Min(offset, dest.Length)]
    {
      ghost var all, n := Joined(pieces), size;
      skipped := 0;
      while skipped < offset
        invariant skipped <= offset <= n <= |all| && size == n - skipped && Joined(pieces) == all[skipped..]
        invariant dest[..Min(skipped, dest.Length)] == all[..Min(skipped, dest.Length)]
        decreases offset - skipped
      {
        skipped := AdvanceOnce(all, skipped, offset - skipped, dest);
      }
      Cut(all, skipped, 0, n);
      assert all[..n][..Min(offset, dest.Length)] == all[..Min(offset, dest.Length)];
    }

    /** One turn of the loop. */
    method AdvanceOnce(ghost all: Text, skipped: nat, left: nat, dest: array<Byte>) returns (skipped': nat)
      requires 0 < left <= size && skipped + size <= |all| && Joined(pieces) == all[skipped..]
      requires dest[..Min(skipped, dest.Length)] == all[..Min(skipped, dest.Length)]
      modifies this, dest
      ensures skipped < skipped' <= skipped + left && size == old(size) - (skipped' - skipped)
      ensures Joined(pieces) == all[skipped'..]
      ensures dest[..Min(skipped', dest.Length)] == all[..Min(skipped', dest.Length)]
    {
      var ready := PrepareHead();
      ready := ready[..Min(|ready|, left)];
      DropFront(pieces, |ready|);
      Cut(all, skipped, |ready|, skipped + size);
      CopyTo(all, skipped, ready, dest);
      ConfirmRead(|ready|);
      skipped' := skipped + |ready|;
    }

    /** The part of what is skipped that goes to dest. */
    static method CopyTo(ghost all: Text, at: nat, ready: Text, dest: array<Byte>)
      requires at + |ready| <= |all| && ready == all[at..at + |ready|]
      requires dest[..Min(at, dest.Length)] == all[..Min(at, dest.Length)]
      modifies dest
      ensures dest[..Min(at + |ready|, dest.Length)] == all[..Min(at + |ready|, dest.Length)]
    {
      ghost var d0 := dest[..];
      for i := 0 to Min(|ready|, if at < dest.Length then dest.Length - at else 0)
        invariant forall j :: 0 <= j < Min(at + i, dest.Length) ==> dest[j] == all[j]
      {
        dest[at + i] := ready[i];
      }
    }
  }

  // ----- the search

  /** find_boundary: the reader is the caller's copy. */
  method FindBoundary(range: Range, boundary: Text, alreadyRead: nat) returns (found: bool, read: nat)
    requires range.Valid() && alreadyRead <= range.size
    requires 0 < |boundary| <= MAX_BOUNDARY_LENGTH
    modifies range
    ensures Answer(old(range.Contents()), boundary, alreadyRead, found, read)
  {
    ghost var t := range.Contents();
    var none := new Byte[0];
    var _ := range.Advance(alreadyRead, none);
    read := alreadyRead;
    var r := range;
    while r.size != 0
      invariant r == range || fresh(r)
      invariant r.Valid() && read <= |t| && r.Contents() == t[read..] && NoneBetween(t, boundary, alreadyRead, read)
      decreases |t| - read
    {
      var end, r';
      end, r', found, read := Turn(t, r, boundary, alreadyRead, read);
      if end { return; }
      r := r';
    }
    TooShort(t, boundary, alreadyRead, read);
    found := false;
  }

  /** One turn of the loop; the reader may be replaced by the saved one. */
  method Turn(ghost t: Text, r: Range, boundary: Text, ghost from: nat, n: nat) returns (end: bool, r': Range, found: bool, n': nat)
    requires r.Valid() && r.size != 0 && n <= |t| && r.Contents() == t[n..] && NoneBetween(t, boundary, from, n)
    requires 0 < |boundary| <= MAX_BOUNDARY_LENGTH
    modifies r
    ensures (r' == r || fresh(r')) && n <= n'
    ensures if end then Answer(t, boundary, from, found, n')
      else n < n' <= |t| && r'.Valid() && r'.Contents() == t[n'..] && NoneBetween(t, boundary, from, n')
  {
    var none := new Byte[0];
    end, r', found, n' := false, r, false, n;
    var ready := r.PrepareRead();
    assert ready[0] == r.Contents()[0];
    if ready[0] == boundary[0] {
      if r.size < |boundary| {
        TooShort(t, boundary, from, n);
        return true, r, false, n;
      }
      var save := r.Clone();
      var x := new Byte[MAX_BOUNDARY_LENGTH];
      var _ := r.Advance(|boundary|, x);
      assert x[..|boundary|] == t[n..][..|boundary|] == t[n..n + |boundary|];
      if x[..|boundary|] == boundary {
        return true, r, true, n;
      }
      SkipOne(t, boundary, from, n);
      var _ := save.Advance(1, none);
      r', n' := save, n + 1;
      assert t[n..][1..] == t[n + 1..];
    } else {
      var shift := FirstAt(ready, boundary[0]);
      assert forall i :: 0 <= i < shift ==> t[n..][i] == ready[i];
      SkipOthers(t, boundary, from, n, shift);
      var _ := r.Advance(shift, none);
      n' := n + shift;
      assert t[n..][shift..] == t[n + shift..];
    }
  }

  // ----- calls over growing texts

  /** Each text begins with the one before, and each call goes on from where the one before stopped. */
  ghost predicate Session(ts: seq<Text>, b: Text, found: seq<bool>, read: seq<nat>) {
    && |found| == |ts| && |read| == |ts|
    && forall k :: 0 <= k < |ts| ==> CallAt(ts, b, found, read, k)
  }

  /** What find_boundary promises of the k-th call. */
  ghost predicate CallAt(ts: seq<Text>, b: Text, found: seq<bool>, read: seq<nat>, k: nat)
    requires k < |ts| == |found| == |read|
  {
    && (k > 0 ==> ts[k - 1] <= ts[k])
    && Answer(ts[k], b, if k == 0 then 0 else read[k - 1], found[k], read[k])
  }

  lemma {:induction false} SessionRulesOut(ts: seq<Text>, b: Text, found: seq<bool>, read: seq<nat>, k: nat)
    requires Session(ts, b, found, read) && k < |ts|
    ensures NoneBetween(ts[k], b, 0, read[k])
    decreases k
  {
    assert CallAt(ts, b, found, read, k);
    if k > 0 {
      SessionRulesOut(ts, b, found, read, k - 1);
      NoneBetweenGrows(ts[k - 1], ts[k], b, 0, read[k - 1]);
    }
  }

  /** Every call of a session answers whether the boundary is in the text, and stops at its first occurrence. */
  lemma SessionFindsFirst(ts: seq<Text>, b: Text, found: seq<bool>, read: seq<nat>, k: nat)
    requires Session(ts, b, found, read) && k < |ts|
    ensures found[k] <==> exists j :: StartsAt(ts[k], b, j)
    ensures found[k] ==> StartsAt(ts[k], b, read[k]) && forall j :: StartsAt(ts[k], b, j) ==> read[k] <= j
  {
    SessionRulesOut(ts, b, found, read, k);
    assert CallAt(ts, b, found, read, k);
    if k > 0 {
      SessionRulesOut(ts, b, found, read, k - 1);
      NoneBetweenGrows(ts[k - 1], ts[k], b, 0, read[k - 1]);
    }
    forall j: nat | StartsAt(ts[k], b, j) ensures found[k] && read[k] <= j { StartsCan(ts[k], b, j); }
  }
}
