/**
 * The chunked table of pxcutils/pxc/utils/FlatHashMapChunks.h over arrays.  A search for an
 * absent key ends only at a chunk that no key has passed, so it may never end; the results
 * say exactly when.  A counter that cannot grow further aborts the program.
 */
module FlatHashTableChunks {
  import opened FlatHashModel
  import opened TriangularProbe
  import opened ChunkModel

  /** At a slot, at the end, or searching without end. */
  datatype FindResult = At(slot: nat) | End | Endless

  datatype Outcome = Done(slot: nat, inserted: bool) | Hangs | Aborts

  const MAX_SKIPPED: nat := 0xFFFF

  /** 1 << (64 - count_leading_zeroes64(x)), as an exponent: the least power of two above x. */
  function LogAbove(x: nat): (k: nat)
    ensures Pow2(k) > x && (x > 0 ==> Pow2(k) <= 2 * x)
  {
    if x == 0 then 0 else 1 + LogAbove(x / 2)
  }

  /** The number of chunks that normalize asks for. */
  function NormalizeLog(size: nat): (k: nat)
    ensures Pow2(k) > size / CHUNK_SIZE && k >= 1 && CHUNK_SIZE * Pow2(k) > size
  {
    var x := size / CHUNK_SIZE;
    LogAbove(if x % 2 == 0 then x + 1 else x)
  }

  lemma {:induction false} LogAboveOf(j: nat)
    ensures LogAbove(Pow2(j) - 1) == j
  {
    if j > 0 {
      LogAboveOf(j - 1);
      assert (Pow2(j) - 1) / 2 == Pow2(j - 1) - 1;
    }
  }

  /** Growing doubles the table, or makes the first two chunks. */
  lemma NormalizeDoubles(j: nat, nodes: nat)
    requires nodes == CHUNK_SIZE * Pow2(j)
    ensures Pow2(1) == 2 && NormalizeLog(0) == 1 && NormalizeLog(2 * nodes - 1) == j + 1
  {
    assert LogAbove(1) == 1;
    LogAboveOf(j + 1);
    assert (2 * nodes - 1) / CHUNK_SIZE == Pow2(j + 1) - 1;
  }

  lemma NormalizeNotSparse(used: nat)
    ensures var n := CHUNK_SIZE * Pow2(NormalizeLog((used + 1) * 5 / 3 + 1)); n <= 28 || used * 10 >= n
  {
    var size := (used + 1) * 5 / 3 + 1;
    var x := size / CHUNK_SIZE;
    var y := if x % 2 == 0 then x + 1 else x;
    assert Pow2(LogAbove(y)) <= 2 * y;
  }

  class FlatHashTableChunks {
    /** A table of more than two chunks is at least a tenth full. */
    predicate NotSparse()
      reads this, nodes
    {
      nodes.Length <= 28 || used * 10 >= nodes.Length
    }

    const hash: Key -> nat
    var nodes: array<Node>
    var ctrl: array<nat>
    var skipped: array<nat>
    var used: nat
    ghost var k: nat                     // the logarithm of the number of chunks
    ghost var contents: map<Key, Value>

    ghost predicate Stored()
      reads this, nodes, ctrl, skipped
    {
      var all := ctrl != skipped && ChunksOK(nodes[..], ctrl[..], skipped[..], hash, contents, k)
        && used == Count(nodes[..]) && used < nodes.Length;
      all
    }

    ghost predicate Valid()
      reads this, nodes, ctrl, skipped
    {
      if nodes.Length == 0 then used == 0 && contents == map[] else Stored() && used * 14 <= nodes.Length * 12
    }

    constructor (hash: Key -> nat)
      ensures Valid() && contents == map[] && this.hash == hash
    {
      this.hash := hash;
      nodes, ctrl, skipped := new Node[0], new nat[0], new nat[0];
      used, k, contents := 0, 0, map[];
    }

    /** The next slot from begin on that equal_mask(ctrl, needle) selects. */
    method NextMatch(begin: nat, end: nat, needle: nat) returns (slot: nat)
      requires begin <= end <= ctrl.Length
      ensures begin <= slot <= end && (slot < end ==> ctrl[slot] == needle)
      ensures forall p :: begin <= p < slot ==> ctrl[p] != needle
    {
      slot := begin;
      while slot < end && ctrl[slot] != needle
        invariant begin <= slot <= end
        invariant forall p :: begin <= p < slot ==> ctrl[p] != needle
      {
        slot := slot + 1;
      }
    }

    /** The slots of one chunk whose control byte fits the key. */
    method FindInChunk(key: Key, chunk: nat) returns (found: bool, slot: nat)
      requires Stored() && key != EMPTY && chunk < Pow2(k)
      ensures found ==> slot < nodes.Length && nodes[slot].key == key
      ensures !found ==> forall p :: 0 <= p < nodes.Length && p / CHUNK_SIZE == chunk ==> nodes[p].key != key
    {
      var begin := CHUNK_SIZE * chunk;
      var end := begin + CHUNK_SIZE;
      slot := NextMatch(begin, end, SmallHash(hash, key));
      while slot < end
        invariant begin <= slot <= end && (slot < end ==> ctrl[slot] == SmallHash(hash, key))
        invariant forall p :: begin <= p < slot ==> nodes[p].key != key
      {
        if nodes[slot].key == key {
          return true, slot;
        }
        slot := NextMatch(slot + 1, end, SmallHash(hash, key));
      }
      found := false;
    }

    /**
     * find, with a bound on the probes: a key that is there is found within as many probes as
     * there are chunks; a search that goes on longer never ends, because it met every chunk.
     */
    method Find(key: Key) returns (r: FindResult)
      requires Valid()
      ensures r.At? ==> r.slot < nodes.Length && key in contents && nodes[r.slot] == Node(key, contents[key])
      ensures r.At? <==> key in contents
      ensures r.Endless? <==> key !in contents && key != EMPTY && used > 0 && forall c :: 0 <= c < skipped.Length ==> skipped[c] > 0
    {
      if used == 0 || key == EMPTY {
        NothingThere(key);
        return End;
      }
      r := Search(key);
    }

    lemma NothingThere(key: Key)
      requires Valid() && (used == 0 || key == EMPTY)
      ensures key !in contents
    {
      if nodes.Length > 0 { OneMap(nodes[..], contents); }
    }

    method Search(key: Key) returns (r: FindResult)
      requires Stored() && key != EMPTY
      ensures r.At? ==> r.slot < nodes.Length && key in contents && nodes[r.slot] == Node(key, contents[key])
      ensures r.At? <==> key in contents
      ensures r.Endless? <==> key !in contents && forall c :: 0 <= c < skipped.Length ==> skipped[c] > 0
    {
      var n := skipped.Length;
      ghost var h := ChunkOf(hash, key, n);
      var chunk, shift := ChunkOf(hash, key, n), 0;
      while shift < n
        invariant shift <= n && chunk == Probe(h, shift, n)
        invariant NotBefore(nodes[..], hash, key, k, shift)
        invariant forall j :: 0 <= j < shift ==> skipped[Probe(h, j, n)] > 0
      {
        var found, slot := FindInChunk(key, chunk);
        if found {
          return At(slot);
        }
        NotBeforeNext(nodes[..], hash, key, k, shift);
        if skipped[chunk] == 0 {
          AbsentAtZero(nodes[..], ctrl[..], skipped[..], hash, contents, k, key, shift);
          return End;
        }
        shift := shift + 1;
        chunk := NextChunk(chunk, shift, n);
      }
      AbsentAfterAll(nodes[..], hash, contents, k, key);
      ZeroIsMet(skipped[..], h, k);
      r := Endless;
    }

    // ----- inserting

    /** What insertion relies on while counters are being raised. */
    ghost predicate Counting(h: nat, i: nat)
      reads this, nodes, ctrl, skipped
    {
      var all := ctrl != skipped && nodes.Length == ctrl.Length == CHUNK_SIZE * Pow2(k) && skipped.Length == Pow2(k)
        && used == Count(nodes[..]) && Marked(nodes[..], ctrl[..], hash) && h < Pow2(k)
        && CountedBut(nodes[..], skipped[..], hash, k, h, i) && NoneFreeBefore(nodes[..], h, k, i);
      all
    }

    /** The slot is free, and i chunks were passed for it. */
    ghost predicate FreeAt(node: Node, slot: nat, i: nat)
      reads this, nodes, ctrl, skipped
    {
      var all := slot < nodes.Length && nodes[slot].Empty() && i < Pow2(k)
        && Counting(ChunkOf(hash, node.key, Pow2(k)), i)
        && slot / CHUNK_SIZE == Probe(ChunkOf(hash, node.key, Pow2(k)), i, Pow2(k));
      all
    }

    /** The loop of emplace and emplace_node is at the i-th chunk of the probe from h. */
    ghost predicate Looks(chunk: nat, h: nat, i: nat)
      reads this, nodes, ctrl, skipped
    {
      var all := Counting(h, i) && i < Pow2(k) && chunk == Probe(h, i, Pow2(k));
      all
    }

    lemma LooksOn(chunk: nat, h: nat, i: nat, z: nat)
      requires Counting(h, i + 1) && i < Pow2(k) && chunk == Probe(h, i, Pow2(k))
      requires z < nodes.Length && nodes[z].Empty()
      ensures skipped.Length == Pow2(k) && Looks(NextChunk(chunk, i + 1, skipped.Length), h, i + 1)
    {
      SomeChunkLeft(nodes[..], h, k, i + 1, z);
    }

    /** A free slot for the entry, with the chunks passed on the way counted. */
    method FreeSlot(node: Node) returns (found: bool, slot: nat, ghost i: nat)
      requires Stored() && !node.Empty()
      modifies skipped
      ensures found ==> FreeAt(node, slot, i)
      ensures !found ==> used >= MAX_SKIPPED
    {
      ghost var z := SomeEmpty(nodes[..]);
      var chunk := ChunkOf(hash, node.key, skipped.Length);
      assert Looks(chunk, chunk, 0);
      found, slot, i := LookFor(chunk, z);
    }

    /** The loop of emplace and emplace_node up to a chunk with a free slot. */
    method LookFor(home: nat, ghost z: nat) returns (found: bool, slot: nat, ghost i: nat)
      requires 0 < skipped.Length && Looks(home, home, 0) && z < nodes.Length && nodes[z].Empty()
      modifies skipped
      ensures found ==> slot < nodes.Length && nodes[slot].Empty() && Looks(slot / CHUNK_SIZE, home, i)
      ensures !found ==> used >= MAX_SKIPPED
    {
      var chunk, shift := home, 0;
      while true
        invariant shift < skipped.Length && Looks(chunk, home, shift)
        decreases skipped.Length - shift
      {
        var passed, next;
        found, slot, passed, next := LookOnce(chunk, home, shift, z);
        if found || !passed {
          return found, slot, shift;
        }
        chunk, shift := next, shift + 1;
      }
    }

    /** One turn of that loop, and the chunk of the next one. */
    method LookOnce(chunk: nat, ghost h: nat, shift: nat, ghost z: nat) returns (found: bool, slot: nat, passed: bool, next: nat)
      requires Looks(chunk, h, shift) && z < nodes.Length && nodes[z].Empty()
      modifies skipped
      ensures found ==> slot < nodes.Length && nodes[slot].Empty() && slot / CHUNK_SIZE == chunk && Looks(chunk, h, shift)
      ensures !found && passed ==> shift + 1 < skipped.Length && Looks(next, h, shift + 1)
      ensures !found && !passed ==> used >= MAX_SKIPPED
    {
      found, slot, passed := TryChunk(chunk, h, shift);
      next := 0;
      if !found && passed {
        LooksOn(chunk, h, shift, z);
        next := NextChunk(chunk, shift + 1, skipped.Length);
      }
    }

    /** One chunk of that loop: a free slot, or one more key goes by, or the program aborts. */
    method TryChunk(chunk: nat, ghost h: nat, ghost i: nat) returns (found: bool, slot: nat, passed: bool)
      requires Looks(chunk, h, i)
      modifies skipped
      ensures found ==> slot < nodes.Length && nodes[slot].Empty() && slot / CHUNK_SIZE == chunk && Counting(h, i)
      ensures !found && passed ==> Counting(h, i + 1)
      ensures !found && !passed ==> used >= MAX_SKIPPED
    {
      var begin, end := CHUNK_SIZE * chunk, CHUNK_SIZE * chunk + CHUNK_SIZE;
      assert end <= ctrl.Length;
      slot := NextMatch(begin, end, 0);
      if slot < end {
        SlotInChunk(slot, chunk);
        assert nodes[..][slot].Empty();
        return true, slot, false;
      }
      NoneFreeNext(nodes[..], h, k, i);
      passed := PassChunk(chunk, h, i);
      found := false;
    }

    /** A full chunk counts a key that goes by; a full counter aborts. */
    method PassChunk(chunk: nat, ghost h: nat, ghost i: nat) returns (ok: bool)
      requires nodes.Length == CHUNK_SIZE * Pow2(k) && skipped.Length == Pow2(k) && used == Count(nodes[..])
      requires h < Pow2(k) && i < Pow2(k) && chunk == Probe(h, i, Pow2(k)) && CountedBut(nodes[..], skipped[..], hash, k, h, i)
      modifies skipped
      ensures ok ==> CountedBut(nodes[..], skipped[..], hash, k, h, i + 1)
      ensures !ok ==> used >= MAX_SKIPPED
    {
      GoneByOne(nodes[..], skipped[..], hash, k, h, i);
      if skipped[chunk] == MAX_SKIPPED {
        return false;
      }
      ghost var was := skipped[..];
      skipped[chunk] := skipped[chunk] + 1;
      assert skipped[..] == was[chunk := was[chunk] + 1];
      ok := true;
    }

    /** The node and its control byte. */
    method PutNode(slot: nat, node: Node, ghost i: nat)
      requires ctrl != skipped && !node.Empty() && node.key !in contents && i < Pow2(k)
      requires nodes.Length == ctrl.Length == CHUNK_SIZE * Pow2(k) && skipped.Length == Pow2(k)
      requires Unique(nodes[..]) && Agrees(nodes[..], contents) && Marked(nodes[..], ctrl[..], hash)
      requires slot < nodes.Length && nodes[slot].Empty()
      requires var h := ChunkOf(hash, node.key, Pow2(k));
        slot / CHUNK_SIZE == Probe(h, i, Pow2(k)) && CountedBut(nodes[..], skipped[..], hash, k, h, i)
      modifies nodes, ctrl
      ensures ChunksOK(nodes[..], ctrl[..], skipped[..], hash, contents[node.key := node.value], k)
      ensures Count(nodes[..]) == old(Count(nodes[..])) + 1 && nodes[slot] == node
    {
      ghost var t, cs := nodes[..], ctrl[..];
      PlacedAgrees(t, contents, slot, node);
      PlacedCounted(t, skipped[..], hash, k, i, slot, node);
      nodes[slot] := node;
      ctrl[slot] := SmallHash(hash, node.key);
      assert nodes[..] == t[slot := node];
      assert ctrl[..] == cs[slot := SmallHash(hash, node.key)];
    }

    /** The first free slot on the probe of the node; full chunks count the node as passing. */
    method EmplaceNode(node: Node) returns (ok: bool, slot: nat)
      requires Stored() && !node.Empty() && node.key !in contents
      modifies nodes, ctrl, skipped, this`used, this`contents
      ensures ok ==> StoredFull() && contents == old(contents)[node.key := node.value] && used == old(used) + 1
      ensures ok ==> slot < nodes.Length && nodes[slot] == node
      ensures !ok ==> old(used) >= MAX_SKIPPED
    {
      ghost var i;
      ok, slot, i := FreeSlot(node);
      if ok {
        PutNode(slot, node, i);
        used := used + 1;
        contents := contents[node.key := node.value];
      }
    }

    // ----- resizing

    method Allocate(ghost log: nat, chunks: nat)
      requires chunks == Pow2(log)
      modifies this`nodes, this`ctrl, this`skipped, this`used, this`k, this`contents
      ensures fresh(nodes) && fresh(ctrl) && fresh(skipped) && nodes.Length == CHUNK_SIZE * chunks && k == log
      ensures Stored() && contents == map[] && used == 0
    {
      nodes := new Node[CHUNK_SIZE * chunks](_ => NO_NODE);
      ctrl := new nat[CHUNK_SIZE * chunks](_ => 0);
      skipped := new nat[chunks](_ => 0);
      used, k, contents := 0, log, map[];
      CountNone(nodes[..]);
    }

    /** resize: every entry is placed again; the counters are built anew. */
    method Resize(log: nat) returns (ok: bool)
      requires (nodes.Length == 0 ==> used == 0 && contents == map[]) && (nodes.Length > 0 ==> StoredFull())
      requires used < CHUNK_SIZE * Pow2(log)
      modifies this
      ensures ok ==> Stored() && contents == old(contents) && used == old(used) && k == log && nodes.Length == CHUNK_SIZE * Pow2(log)
      ensures ok ==> fresh(nodes) && fresh(ctrl) && fresh(skipped)
      ensures !ok ==> old(used) >= MAX_SKIPPED
    {
      var oldNodes := nodes;
      ghost var was, m, u := nodes[..], contents, used;
      if nodes.Length > 0 { OneMap(was, contents); }
      assert Entries(was) == m && Count(was) == u && Unique(was);
      Allocate(log, Pow2(log));
      ok := Refill(oldNodes);
    }

    method Refill(oldNodes: array<Node>) returns (ok: bool)
      requires Stored() && used == 0 && contents == map[] && Unique(oldNodes[..]) && Count(oldNodes[..]) < nodes.Length
      requires oldNodes != nodes
      modifies nodes, ctrl, skipped, this`used, this`contents
      ensures ok ==> Stored() && contents == Entries(oldNodes[..]) && used == Count(oldNodes[..])
      ensures !ok ==> Count(oldNodes[..]) >= MAX_SKIPPED
    {
      ghost var was := oldNodes[..];
      var i := 0;
      while i < oldNodes.Length
        invariant i <= |was| && oldNodes[..] == was
        invariant Stored() && contents == Entries(was[..i]) && used == Count(was[..i])
      {
        assert was[..i + 1][..i] == was[..i];
        if !oldNodes[i].Empty() {
          AbsentInPrefix(was, i);
          var slot;
          ok, slot := EmplaceNode(oldNodes[i]);
          if !ok {
            return;
          }
        }
        i := i + 1;
      }
      assert was[..i] == was;
      ok := true;
    }

    // ----- the public operations

    /** How many slots there are after try_grow: as many as before if one more entry fits into six sevenths of them. */
    static function Grown(used: nat, nodes: nat): nat {
      if (used + 1) * 14 <= nodes * 12 then nodes else if nodes == 0 then 28 else 2 * nodes
    }

    /** try_grow: one more entry will fit. */
    method TryGrow() returns (ok: bool)
      requires Valid()
      modifies this
      ensures ok ==> Stored() && contents == old(contents) && used == old(used) && (used + 1) * 14 <= nodes.Length * 12
      ensures ok ==> (nodes == old(nodes) && ctrl == old(ctrl) && skipped == old(skipped)) || (fresh(nodes) && fresh(ctrl) && fresh(skipped))
      ensures ok ==> nodes.Length == Grown(old(used), old(nodes.Length))
      ensures !ok ==> old(used) >= MAX_SKIPPED
    {
      ok := true;
      if (used + 1) * 14 > nodes.Length * 12 {
        if nodes.Length > 0 { NormalizeDoubles(k, nodes.Length); } else { NormalizeDoubles(0, CHUNK_SIZE); }
        var want := 2 * nodes.Length - (if nodes.Length == 0 then 0 else 1);
        ok := Resize(NormalizeLog(want));
      }
    }

    method TryShrink() returns (ok: bool)
      requires Stored() && used * 14 <= nodes.Length * 12
      modifies this
      ensures ok ==> NotSparse() && used == old(used) && (nodes == old(nodes) <==> old(used) * 10 >= old(nodes.Length))
      ensures ok ==> Valid() && contents == old(contents)
      ensures ok ==> (nodes == old(nodes) && ctrl == old(ctrl) && skipped == old(skipped)) || (fresh(nodes) && fresh(ctrl) && fresh(skipped))
      ensures !ok ==> old(used) >= MAX_SKIPPED
    {
      ok := true;
      if used * 10 < nodes.Length {
        NormalizeNotSparse(used);
        ok := Resize(NormalizeLog((used + 1) * 5 / 3 + 1));
      }
    }

    /** Adds the entry unless the key is there; hangs exactly when the search for the key does. */
    method Emplace(key: Key, value: Value) returns (r: Outcome)
      requires Valid() && key != EMPTY
      modifies this, nodes, ctrl, skipped
      ensures r.Hangs? <==> key !in old(contents) && old(used) > 0 && forall c :: 0 <= c < old(skipped.Length) ==> old(skipped[c]) > 0
      ensures r.Aborts? ==> old(used) >= MAX_SKIPPED
      ensures r.Done? ==> Valid() && r.inserted == (key !in old(contents))
      ensures r.Done? ==> contents == if r.inserted then old(contents)[key := value] else old(contents)
      ensures r.Done? ==> r.slot < nodes.Length && nodes[r.slot] == Node(key, contents[key])
      ensures r.Done? ==> nodes.Length == if r.inserted then Grown(old(used), old(nodes.Length)) else old(nodes.Length)
      ensures r.Done? ==> (nodes == old(nodes) && ctrl == old(ctrl) && skipped == old(skipped)) || (fresh(nodes) && fresh(ctrl) && fresh(skipped))
    {
      var found := Find(key);
      match found
      case At(slot) => r := Done(slot, false);
      case Endless => r := Hangs;
      case End =>
        var ok := TryGrow();
        if !ok {
          return Aborts;
        }
        var slot;
        ok, slot := EmplaceNode(Node(key, value));
        r := if ok then Done(slot, true) else Aborts;
    }

    /** erase_node: the key is withdrawn from the chunks its probe passed. */
    method EraseNode(slot: nat)
      requires StoredFull() && slot < nodes.Length && !nodes[slot].Empty()
      modifies nodes, ctrl, skipped, this`used, this`contents
      ensures StoredFull() && used == old(used) - 1 && contents == old(contents) - {old(nodes[slot].key)}
      ensures nodes[..] == old(nodes[..])[slot := NO_NODE]
    {
      ghost var t, m := nodes[..], contents - {nodes[slot].key};
      ErasedAgrees(t, contents, slot);
      Withdraw(slot);
      WithdrawnCounted(t, skipped[..], hash, k, slot);
      ClearSlot(slot);
      used := used - 1;
      contents := m;
    }

    method ClearSlot(slot: nat)
      requires nodes.Length == ctrl.Length && slot < nodes.Length && Marked(nodes[..], ctrl[..], hash)
      modifies nodes, ctrl
      ensures nodes[..] == old(nodes[..])[slot := NO_NODE] && Marked(nodes[..], ctrl[..], hash) && ctrl.Length == old(ctrl.Length)
    {
      ghost var t, cs := nodes[..], ctrl[..];
      ctrl[slot] := 0;
      nodes[slot] := NO_NODE;
      assert nodes[..] == t[slot := NO_NODE];
      assert ctrl[..] == cs[slot := 0];
    }

    method Withdraw(slot: nat)
      requires StoredFull() && slot < nodes.Length && !nodes[slot].Empty()
      modifies skipped
      ensures skipped.Length == Pow2(k) && nodes.Length == CHUNK_SIZE * Pow2(k)
      ensures var h := ChunkOf(hash, nodes[slot].key, Pow2(k));
        CountedWithout(nodes[..], skipped[..], hash, k, h, Depth(h, slot / CHUNK_SIZE, k))
    {
      var n, emptyChunk := skipped.Length, slot / CHUNK_SIZE;
      ghost var h := ChunkOf(hash, nodes[slot].key, n);
      ghost var d := Depth(h, emptyChunk, k);
      var chunk, shift := ChunkOf(hash, nodes[slot].key, n), 0;
      while chunk != emptyChunk
        invariant shift <= d && chunk == Probe(h, shift, n)
        invariant CountedWithout(nodes[..], skipped[..], hash, k, h, shift)
        decreases d - shift
      {
        WithdrawOne(slot, chunk, shift);
        shift := shift + 1;
        chunk := NextChunk(chunk, shift, n);
      }
      DepthIs(h, shift, k);
    }

    method WithdrawOne(slot: nat, chunk: nat, ghost i: nat)
      requires nodes.Length == CHUNK_SIZE * Pow2(k) && skipped.Length == Pow2(k) && slot < nodes.Length && !nodes[slot].Empty()
      requires var h := ChunkOf(hash, nodes[slot].key, Pow2(k));
        && chunk == Probe(h, i, Pow2(k)) && chunk != slot / CHUNK_SIZE && i <= Depth(h, slot / CHUNK_SIZE, k)
        && CountedWithout(nodes[..], skipped[..], hash, k, h, i)
      modifies skipped
      ensures var h := ChunkOf(hash, nodes[slot].key, Pow2(k));
        i < Depth(h, slot / CHUNK_SIZE, k) && CountedWithout(nodes[..], skipped[..], hash, k, h, i + 1)
    {
      ghost var was := skipped[..];
      WithdrawnOne(nodes[..], was, hash, k, slot, i);
      skipped[chunk] := skipped[chunk] - 1;
      assert skipped[..] == was[chunk := was[chunk] - 1];
    }

    /** erase: removes the key if it is there; hangs exactly when the search does. */
    method Erase(key: Key) returns (r: FindResult, ok: bool)
      requires Valid()
      modifies this, nodes, ctrl, skipped
      ensures r.At? <==> key in old(contents)
      ensures r.Endless? <==>
        (key !in old(contents) && key != EMPTY && old(used) > 0 && forall c :: 0 <= c < old(skipped.Length) ==> old(skipped[c]) > 0)
      ensures ok ==> Valid() && contents == old(contents) - {key}
      ensures ok && r.At? ==> NotSparse()
      ensures !ok ==> old(used) > MAX_SKIPPED
    {
      r := Find(key);
      ok := true;
      if r.At? {
        EraseNode(r.slot);
        ok := TryShrink();
      } else {
        assert contents == contents - {key};
      }
    }

    /** remove_if: nothing moves, so one pass asks once about each entry. */
    method RemoveIf(f: (Key, Value) -> bool) returns (ok: bool)
      requires Valid()
      modifies this, nodes, ctrl, skipped
      ensures ok ==> Valid() && contents == map key | key in old(contents) && !f(key, old(contents)[key]) :: old(contents)[key]
      ensures ok ==> NotSparse()
      ensures !ok ==> old(used) >= MAX_SKIPPED
    {
      ok := true;
      if nodes.Length == 0 {
        return;
      }
      RemoveAll(f);
      ok := TryShrink();
    }

    method RemoveAll(f: (Key, Value) -> bool)
      requires Stored()
      modifies nodes, ctrl, skipped, this`used, this`contents
      ensures Stored() && used <= old(used)
      ensures contents == map key | key in old(contents) && !f(key, old(contents)[key]) :: old(contents)[key]
    {
      ghost var t0, m0 := nodes[..], contents;
      var i := 0;
      while i < nodes.Length
        invariant i <= nodes.Length && StoredFull() && used <= old(used) && Unique(t0) && Agrees(t0, m0)
        invariant Filtered(t0, nodes[..], f, i)
      {
        FilteredNext(t0, nodes[..], f, i);
        if !nodes[i].Empty() && f(nodes[i].key, nodes[i].value) {
          EraseNode(i);
        }
        i := i + 1;
      }
      FilteredAll(t0, nodes[..], f, m0, contents);
    }

    /** As Stored, but there may be no free slot. */
    ghost predicate StoredFull()
      reads this, nodes, ctrl, skipped
    {
      var all := ctrl != skipped && ChunksOK(nodes[..], ctrl[..], skipped[..], hash, contents, k) && used == Count(nodes[..]);
      all
    }
  }

  lemma SlotInChunk(slot: nat, chunk: nat)
    requires CHUNK_SIZE * chunk <= slot < CHUNK_SIZE * chunk + CHUNK_SIZE
    ensures slot / CHUNK_SIZE == chunk
  {
  }

  /** The first i slots keep what f does not match; the others are as they were. */
  ghost predicate Filtered(t0: Table, t: Table, f: (Key, Value) -> bool, i: nat) {
    var all := |t| == |t0| &&
      forall p :: 0 <= p < |t| ==> t[p] == if p < i && !t0[p].Empty() && f(t0[p].key, t0[p].value) then NO_NODE else t0[p];
    all
  }

  lemma FilteredNext(t0: Table, t: Table, f: (Key, Value) -> bool, i: nat)
    requires i < |t| && Filtered(t0, t, f, i)
    ensures Filtered(t0, if !t[i].Empty() && f(t[i].key, t[i].value) then t[i := NO_NODE] else t, f, i + 1)
  {
  }

  lemma FilteredAll(t0: Table, t: Table, f: (Key, Value) -> bool, m0: map<Key, Value>, m: map<Key, Value>)
    requires Agrees(t0, m0) && Agrees(t, m) && Unique(t0) && Filtered(t0, t, f, |t|)
    ensures m == map k | k in m0 && !f(k, m0[k]) :: m0[k]
  {
    forall k | k in m ensures k in m0 && !f(k, m0[k]) && m[k] == m0[k] {
      var p :| 0 <= p < |t| && t[p] == Node(k, m[k]);
      assert t0[p] == t[p];
    }
    forall k | k in m0 && !f(k, m0[k]) ensures k in m {
      var p :| 0 <= p < |t0| && t0[p] == Node(k, m0[k]);
      assert t[p] == t0[p];
    }
  }

  /** The chunks of the first i probes are full. */
  ghost predicate NoneFreeBefore(t: Table, h: nat, k: nat, i: nat)
    requires |t| == CHUNK_SIZE * Pow2(k) && h < Pow2(k)
  {
    forall p :: 0 <= p < |t| && t[p].Empty() ==> i <= Depth(h, p / CHUNK_SIZE, k)
  }

  lemma NoneFreeNext(t: Table, h: nat, k: nat, i: nat)
    requires |t| == CHUNK_SIZE * Pow2(k) && h < Pow2(k) && i < Pow2(k) && NoneFreeBefore(t, h, k, i)
    requires var begin := CHUNK_SIZE * Probe(h, i, Pow2(k)); forall p :: begin <= p < begin + CHUNK_SIZE ==> !t[p].Empty()
    ensures NoneFreeBefore(t, h, k, i + 1)
  {
    forall p | 0 <= p < |t| && t[p].Empty() ensures i + 1 <= Depth(h, p / CHUNK_SIZE, k) {
      assert Probe(h, Depth(h, p / CHUNK_SIZE, k), Pow2(k)) == p / CHUNK_SIZE;
    }
  }

  lemma SomeChunkLeft(t: Table, h: nat, k: nat, i: nat, z: nat)
    requires |t| == CHUNK_SIZE * Pow2(k) && h < Pow2(k) && NoneFreeBefore(t, h, k, i) && z < |t| && t[z].Empty()
    ensures i < Pow2(k)
  {
  }

  lemma AbsentInPrefix(was: Table, i: nat)
    requires Unique(was) && i < |was| && !was[i].Empty()
    ensures was[i].key !in Entries(was[..i]) && Count(was[..i]) < Count(was)
  {
    EntriesAgree(was[..i]);
    forall p | 0 <= p < i ensures was[..i][p].key != was[i].key {
    }
    PrefixCount(was, i);
  }

  lemma {:induction false} PrefixCount(was: Table, i: nat)
    requires i < |was| && !was[i].Empty()
    ensures Count(was[..i]) < Count(was)
    decreases |was|
  {
    if i < |was| - 1 {
      var u := was[..|was| - 1];
      assert u[..i] == was[..i];
      PrefixCount(u, i);
    }
  }
}
