/**
 * What the chunked table of pxcutils/pxc/utils/FlatHashMapChunks.h keeps true: chunks of 14
 * slots, a control byte per slot, and per chunk the number of stored keys whose probe passed
 * it because it was full.
 */
module ChunkModel {
  import opened FlatHashModel
  import opened TriangularProbe

  const CHUNK_SIZE: nat := 14

  /** (h >> 8) % chunks_.size(), for n chunks */
  function ChunkOf(hash: Key -> nat, key: Key, n: nat): (c: nat)
    requires n > 0
    ensures c < n
  {
    (hash(key) / 256) % n
  }

  /** static_cast<uint8>(0x80 | h) */
  function SmallHash(hash: Key -> nat, key: Key): (s: nat)
    ensures 128 <= s < 256
  {
    128 + hash(key) % 128
  }

  /** Does the probe of the node at slot p pass chunk c before it reaches the node's chunk? */
  ghost predicate Passes(hash: Key -> nat, node: Node, p: nat, c: nat, k: nat)
    requires c < Pow2(k) && p < CHUNK_SIZE * Pow2(k)
  {
    var h := ChunkOf(hash, node.key, Pow2(k));
    !node.Empty() && Depth(h, c, k) < Depth(h, p / CHUNK_SIZE, k)
  }

  ghost function PassBit(hash: Key -> nat, node: Node, p: nat, c: nat, k: nat): nat
    requires c < Pow2(k) && p < CHUNK_SIZE * Pow2(k)
  {
    if Passes(hash, node, p, c, k) then 1 else 0
  }

  /** How many stored keys pass the chunk. */
  ghost function PassCount(t: Table, hash: Key -> nat, c: nat, k: nat): (n: nat)
    requires c < Pow2(k) && |t| <= CHUNK_SIZE * Pow2(k)
    ensures n <= Count(t)
  {
    if t == [] then 0
    else PassCount(t[..|t| - 1], hash, c, k) + PassBit(hash, t[|t| - 1], |t| - 1, c, k)
  }

  lemma {:induction false} PassUpdate(t: Table, hash: Key -> nat, c: nat, k: nat, p: nat, node: Node)
    requires c < Pow2(k) && |t| <= CHUNK_SIZE * Pow2(k) && p < |t|
    ensures PassCount(t[p := node], hash, c, k) + PassBit(hash, t[p], p, c, k)
         == PassCount(t, hash, c, k) + PassBit(hash, node, p, c, k)
  {
    var l := |t| - 1;
    if p == l {
      assert t[p := node][..l] == t[..l];
    } else {
      assert t[p := node][..l] == t[..l][p := node];
      PassUpdate(t[..l], hash, c, k, p, node);
    }
  }

  lemma {:induction false} PassPositive(t: Table, hash: Key -> nat, c: nat, k: nat, p: nat)
    requires c < Pow2(k) && |t| <= CHUNK_SIZE * Pow2(k) && p < |t| && Passes(hash, t[p], p, c, k)
    ensures PassCount(t, hash, c, k) > 0
  {
    if p < |t| - 1 {
      PassPositive(t[..|t| - 1], hash, c, k, p);
    }
  }

  /** Slots, control bytes and counters of n = 2^k chunks that hold exactly the entries of the map. */
  ghost predicate ChunksOK(t: Table, ctrl: seq<nat>, skipped: seq<nat>, hash: Key -> nat, m: map<Key, Value>, k: nat) {
    && |t| == |ctrl| == CHUNK_SIZE * Pow2(k) && |skipped| == Pow2(k)
    && Unique(t) && Agrees(t, m)
    && Marked(t, ctrl, hash) && Counted(t, skipped, hash, k)
  }

  ghost predicate Marked(t: Table, ctrl: seq<nat>, hash: Key -> nat)
    requires |ctrl| == |t|
  {
    forall p :: 0 <= p < |t| ==> ctrl[p] == if t[p].Empty() then 0 else SmallHash(hash, t[p].key)
  }

  ghost predicate Counted(t: Table, skipped: seq<nat>, hash: Key -> nat, k: nat)
    requires |t| == CHUNK_SIZE * Pow2(k) && |skipped| == Pow2(k)
  {
    forall c :: 0 <= c < Pow2(k) ==> skipped[c] == PassCount(t, hash, c, k)
  }

  // ----- searching

  /** The key is not in the chunks of the first i probes. */
  ghost predicate NotBefore(t: Table, hash: Key -> nat, key: Key, k: nat, i: nat)
    requires |t| == CHUNK_SIZE * Pow2(k)
  {
    forall p :: 0 <= p < |t| && t[p].key == key ==> i <= Depth(ChunkOf(hash, key, Pow2(k)), p / CHUNK_SIZE, k)
  }

  /** The key is not in this chunk either. */
  lemma NotBeforeNext(t: Table, hash: Key -> nat, key: Key, k: nat, i: nat)
    requires |t| == CHUNK_SIZE * Pow2(k) && i < Pow2(k) && NotBefore(t, hash, key, k, i)
    requires forall p :: 0 <= p < |t| && p / CHUNK_SIZE == Probe(ChunkOf(hash, key, Pow2(k)), i, Pow2(k)) ==> t[p].key != key
    ensures NotBefore(t, hash, key, k, i + 1)
  {
  }

  /** A chunk that no key has passed ends the search: the key would have passed it. */
  lemma AbsentAtZero(t: Table, ctrl: seq<nat>, skipped: seq<nat>, hash: Key -> nat, m: map<Key, Value>, k: nat, key: Key, i: nat)
    requires ChunksOK(t, ctrl, skipped, hash, m, k) && key != EMPTY && i < Pow2(k) && NotBefore(t, hash, key, k, i + 1)
    requires skipped[Probe(ChunkOf(hash, key, Pow2(k)), i, Pow2(k))] == 0
    ensures key !in m
  {
    var h := ChunkOf(hash, key, Pow2(k));
    var c := Probe(h, i, Pow2(k));
    DepthIs(h, i, k);
    forall p | 0 <= p < |t| ensures t[p].key != key {
      if t[p].key == key { PassPositive(t, hash, c, k, p); }
    }
  }

  /** After as many probes as there are chunks, the key is nowhere. */
  lemma AbsentAfterAll(t: Table, hash: Key -> nat, m: map<Key, Value>, k: nat, key: Key)
    requires |t| == CHUNK_SIZE * Pow2(k) && Agrees(t, m) && key != EMPTY && NotBefore(t, hash, key, k, Pow2(k))
    ensures key !in m
  {
  }

  /** Then a counter that is zero would have been met. */
  lemma ZeroIsMet(skipped: seq<nat>, h: nat, k: nat)
    requires |skipped| == Pow2(k) && h < Pow2(k)
    requires forall j :: 0 <= j < Pow2(k) ==> skipped[Probe(h, j, Pow2(k))] > 0
    ensures forall c :: 0 <= c < Pow2(k) ==> skipped[c] > 0
  {
    forall c | 0 <= c < Pow2(k) ensures skipped[c] > 0 {
      assert Probe(h, Depth(h, c, k), Pow2(k)) == c;
    }
  }

  // ----- inserting and erasing

  /** The counters when a key has gone by the chunks of its first i probes. */
  ghost predicate CountedBut(t: Table, skipped: seq<nat>, hash: Key -> nat, k: nat, h: nat, i: nat)
    requires |t| == CHUNK_SIZE * Pow2(k) && |skipped| == Pow2(k) && h < Pow2(k)
  {
    forall c :: 0 <= c < Pow2(k) ==> skipped[c] == PassCount(t, hash, c, k) + (if Depth(h, c, k) < i then 1 else 0)
  }

  lemma GoneByOne(t: Table, skipped: seq<nat>, hash: Key -> nat, k: nat, h: nat, i: nat)
    requires |t| == CHUNK_SIZE * Pow2(k) && |skipped| == Pow2(k) && h < Pow2(k) && i < Pow2(k)
    requires CountedBut(t, skipped, hash, k, h, i)
    ensures var c := Probe(h, i, Pow2(k));
      CountedBut(t, skipped[c := skipped[c] + 1], hash, k, h, i + 1) && skipped[c] == PassCount(t, hash, c, k)
  {
    var c := Probe(h, i, Pow2(k));
    var skipped' := skipped[c := skipped[c] + 1];
    DepthIs(h, i, k);
    forall d | 0 <= d < Pow2(k)
      ensures skipped'[d] == PassCount(t, hash, d, k) + (if Depth(h, d, k) < i + 1 then 1 else 0)
    {
      if Depth(h, d, k) == i { assert d == c; }
    }
  }

  /** Putting the key into the chunk of its i-th probe makes the counters exact. */
  lemma PlacedCounted(t: Table, skipped: seq<nat>, hash: Key -> nat, k: nat, i: nat, p: nat, node: Node)
    requires |t| == CHUNK_SIZE * Pow2(k) && |skipped| == Pow2(k) && i < Pow2(k) && p < |t| && t[p].Empty() && !node.Empty()
    requires p / CHUNK_SIZE == Probe(ChunkOf(hash, node.key, Pow2(k)), i, Pow2(k))
    requires CountedBut(t, skipped, hash, k, ChunkOf(hash, node.key, Pow2(k)), i)
    ensures Counted(t[p := node], skipped, hash, k)
  {
    var h := ChunkOf(hash, node.key, Pow2(k));
    DepthIs(h, i, k);
    forall c | 0 <= c < Pow2(k) ensures skipped[c] == PassCount(t[p := node], hash, c, k) {
      PassUpdate(t, hash, c, k, p, node);
    }
  }

  /** The counters while a key is being withdrawn from the chunks of its first i probes. */
  ghost predicate CountedWithout(t: Table, skipped: seq<nat>, hash: Key -> nat, k: nat, h: nat, i: nat)
    requires |t| == CHUNK_SIZE * Pow2(k) && |skipped| == Pow2(k) && h < Pow2(k)
  {
    forall c :: 0 <= c < Pow2(k) ==> skipped[c] + (if Depth(h, c, k) < i then 1 else 0) == PassCount(t, hash, c, k)
  }

  lemma WithdrawnOne(t: Table, skipped: seq<nat>, hash: Key -> nat, k: nat, p: nat, i: nat)
    requires |t| == CHUNK_SIZE * Pow2(k) && |skipped| == Pow2(k) && p < |t| && !t[p].Empty()
    requires i < Depth(ChunkOf(hash, t[p].key, Pow2(k)), p / CHUNK_SIZE, k)
    requires CountedWithout(t, skipped, hash, k, ChunkOf(hash, t[p].key, Pow2(k)), i)
    ensures var h := ChunkOf(hash, t[p].key, Pow2(k));
      var c := Probe(h, i, Pow2(k));
      skipped[c] > 0 && CountedWithout(t, skipped[c := skipped[c] - 1], hash, k, h, i + 1)
  {
    var h := ChunkOf(hash, t[p].key, Pow2(k));
    var c := Probe(h, i, Pow2(k));
    DepthIs(h, i, k);
    PassPositive(t, hash, c, k, p);
    var skipped' := skipped[c := skipped[c] - 1];
    forall d | 0 <= d < Pow2(k)
      ensures skipped'[d] + (if Depth(h, d, k) < i + 1 then 1 else 0) == PassCount(t, hash, d, k)
    {
      if Depth(h, d, k) == i { assert d == c; }
    }
  }

  lemma WithdrawnCounted(t: Table, skipped: seq<nat>, hash: Key -> nat, k: nat, p: nat)
    requires |t| == CHUNK_SIZE * Pow2(k) && |skipped| == Pow2(k) && p < |t| && !t[p].Empty()
    requires var h := ChunkOf(hash, t[p].key, Pow2(k)); CountedWithout(t, skipped, hash, k, h, Depth(h, p / CHUNK_SIZE, k))
    ensures Counted(t[p := NO_NODE], skipped, hash, k)
  {
    forall c | 0 <= c < Pow2(k) ensures skipped[c] == PassCount(t[p := NO_NODE], hash, c, k) {
      PassUpdate(t, hash, c, k, p, NO_NODE);
    }
  }

  lemma PlacedAgrees(t: Table, m: map<Key, Value>, p: nat, node: Node)
    requires Unique(t) && Agrees(t, m) && p < |t| && t[p].Empty() && !node.Empty() && node.key !in m
    ensures Unique(t[p := node]) && Agrees(t[p := node], m[node.key := node.value]) && Count(t[p := node]) == Count(t) + 1
  {
    var t', m' := t[p := node], m[node.key := node.value];
    CountUpdate(t, p, node);
    forall k | k in m' ensures HasNode(t', k, m'[k]) {
      if k == node.key {
        assert t'[p] == Node(k, node.value);
      } else {
        var q :| 0 <= q < |t| && t[q] == Node(k, m[k]);
        assert t'[q] == t[q];
      }
    }
  }

  lemma ErasedAgrees(t: Table, m: map<Key, Value>, p: nat)
    requires Unique(t) && Agrees(t, m) && p < |t| && !t[p].Empty()
    ensures Unique(t[p := NO_NODE]) && Agrees(t[p := NO_NODE], m - {t[p].key}) && Count(t[p := NO_NODE]) == Count(t) - 1
  {
    var t' := t[p := NO_NODE];
    CountUpdate(t, p, NO_NODE);
    forall k | k in m - {t[p].key} ensures HasNode(t', k, m[k]) {
      var q :| 0 <= q < |t| && t[q] == Node(k, m[k]);
      assert t'[q] == t[q];
    }
  }
}
