/**
 * A table of two chunks in which every chunk has been passed, so that a search for an absent key
 * never ends.  It is what these calls leave: emplace 15 keys at home in chunk 0, the last of which
 * passes it; erase the first 10 of them; emplace 13 keys at home in chunk 1, which fill it, and one
 * more, which passes it.
 */
module FlatHashEndless {
  import opened FlatHashModel
  import opened TriangularProbe
  import opened ChunkModel
  import opened FlatHashTableChunks

  /** Keys up to 15 are at home in chunk 0, the others in chunk 1. */
  function Hash(k: Key): nat { if k <= 15 then 0 else 256 }

  /** Keys 11 to 14 are left in chunk 0, where key 29 came as well; key 15 and keys 16 to 28 fill chunk 1. */
  function KeyAt(p: nat): Key { if p == 0 then 29 else if p < 10 then EMPTY else p + 1 }

  function NodeAt(p: nat): Node { Node(KeyAt(p), 0) }

  function Layout(): (t: Table)
    ensures |t| == 28 && forall p :: 0 <= p < 28 ==> t[p] == NodeAt(p)
  {
    seq(28, p => if p >= 0 then NodeAt(p) else NO_NODE)
  }

  /** Two chunks: the home first, then the other. */
  lemma TwoChunks(h: nat, c: nat)
    requires h < 2 && c < 2
    ensures Pow2(1) == 2 && Depth(h, c, 1) == if c == h then 0 else 1
  {
    assert Pow2(1) == 2 * Pow2(0);
    DepthIs(h, if c == h then 0 else 1, 1);
    assert Probe(h, 1, 2) == NextChunk(h, 1, 2);
  }

  /** A key passes its home chunk exactly if it is in the other one. */
  lemma PassesHome(p: nat, c: nat)
    requires p < 28 && c < 2
    ensures Pow2(1) == 2 && Passes(Hash, NodeAt(p), p, c, 1) == (p == Passer(c))
  {
    TwoChunks(ChunkOf(Hash, KeyAt(p), 2), c);
    TwoChunks(ChunkOf(Hash, KeyAt(p), 2), p / CHUNK_SIZE);
  }

  /** The slot of the one key that passes the chunk. */
  function Passer(c: nat): nat { if c == 0 then 14 else 0 }

  lemma {:induction false} PassedOnce(n: nat, c: nat)
    requires n <= 28 && c < 2
    ensures Pow2(1) == 2 && PassCount(Layout()[..n], Hash, c, 1) == if n > Passer(c) then 1 else 0
  {
    assert Pow2(1) == 2 * Pow2(0);
    if n > 0 {
      var t := Layout()[..n];
      assert t[..n - 1] == Layout()[..n - 1] && t[n - 1] == NodeAt(n - 1);
      PassedOnce(n - 1, c);
      PassesHome(n - 1, c);
    }
  }

  lemma {:induction false} CountIs(n: nat)
    requires n <= 28
    ensures Count(Layout()[..n]) == if n == 0 then 0 else if n <= 10 then 1 else n - 9
  {
    if n > 0 {
      var t := Layout()[..n];
      assert t[..n - 1] == Layout()[..n - 1] && t[n - 1] == NodeAt(n - 1);
      CountIs(n - 1);
    }
  }

  function Control(p: nat): nat { if KeyAt(p) == EMPTY then 0 else SmallHash(Hash, KeyAt(p)) }

  /** The invariant of the chunked table holds there, and key 30 is absent. */
  lemma LayoutHolds(ctrl: seq<nat>)
    requires |ctrl| == 28 && forall p :: 0 <= p < 28 ==> ctrl[p] == Control(p)
    ensures ChunksOK(Layout(), ctrl, [1, 1], Hash, Entries(Layout()), 1)
    ensures Count(Layout()) == 19 && 30 !in Entries(Layout())
  {
    var t := Layout();
    assert t[..28] == t;
    CountIs(28);
    forall c | 0 <= c < 2 ensures [1, 1][c] == PassCount(t, Hash, c, 1) { PassedOnce(28, c); }
    EntriesAgree(t);
    Absent(t, Entries(t), 30);
  }

  lemma Absent(t: Table, m: map<Key, Value>, k: Key)
    requires Agrees(t, m) && forall p :: 0 <= p < |t| ==> t[p].key != k
    ensures k !in m
  {
  }

  ghost predicate HasLayout(t: FlatHashTableChunks)
    reads t, t.nodes, t.ctrl, t.skipped
  {
    var all := t.hash == Hash && t.k == 1 && t.contents == Entries(Layout()) && t.used == 19
      && t.nodes[..] == Layout() && t.ctrl.Length == 28 && (forall p :: 0 <= p < 28 ==> t.ctrl[p] == Control(p))
      && t.skipped[..] == [1, 1] && t.ctrl != t.skipped;
    all
  }

  lemma LayoutValid(t: FlatHashTableChunks)
    requires HasLayout(t)
    ensures t.Valid() && 30 !in t.contents
  {
    LayoutHolds(t.ctrl[..]);
    assert t.Stored();
  }

  method LayoutNodes() returns (nodes: array<Node>)
    ensures fresh(nodes) && nodes[..] == Layout()
  {
    nodes := new Node[28](p requires 0 <= p => NodeAt(p));
    assert nodes[..] == Layout();
  }

  method LayoutControl() returns (ctrl: array<nat>)
    ensures fresh(ctrl) && ctrl.Length == 28 && forall p :: 0 <= p < 28 ==> ctrl[p] == Control(p)
  {
    ctrl := new nat[28](p requires 0 <= p => Control(p));
  }

  method LayoutSkipped() returns (skipped: array<nat>)
    ensures fresh(skipped) && skipped[..] == [1, 1]
  {
    skipped := new nat[2](_ => 1);
    assert skipped[..] == [1, 1];
  }

  method Build() returns (t: FlatHashTableChunks)
    ensures fresh(t) && HasLayout(t)
  {
    var nodes := LayoutNodes();
    var ctrl := LayoutControl();
    var skipped := LayoutSkipped();
    t := new FlatHashTableChunks(Hash);
    t.nodes, t.ctrl, t.skipped, t.used, t.k, t.contents := nodes, ctrl, skipped, 19, 1, Entries(Layout());
  }

  /** The table is valid, both counters are positive, and the search for key 30 never ends. */
  method FindNeverEnds() returns (t: FlatHashTableChunks, r: FindResult)
    ensures t.Valid() && t.used == 19 && t.nodes.Length == 28 && t.skipped[..] == [1, 1]
    ensures 30 !in t.contents && r == Endless
  {
    t := Build();
    LayoutValid(t);
    assert t.nodes[..] == Layout();
    assert forall c :: 0 <= c < t.skipped.Length ==> t.skipped[..][c] == t.skipped[c];
    r := t.Find(30);
  }
}
