/**
 * The open-addressing hash table of pxcutils/pxc/utils/FlatHashTable.h: linear probing, a
 * load factor of three fifths, and deletion by shifting entries back, across the end of the
 * array if need be.  The ghost map contents is what the table means; every public method
 * says what it does to that map, and Valid ties the map to the buckets.
 */
module FlatHashTable {
  import opened FlatHashModel

  // ----- sizes

  /** 1 << (32 - count_leading_zeroes32(size)) */
  function PowerAbove(size: nat): (p: nat)
    ensures p > size && (size > 0 ==> p <= 2 * size)
  {
    if size == 0 then 1 else 2 * PowerAbove(size / 2)
  }

  function NormalizeSize(size: nat): (p: nat)
    ensures p >= 8 && p > size
  {
    if PowerAbove(size) < 8 then 8 else PowerAbove(size)
  }

  predicate PowerOfTwo(n: nat) {
    n == 1 || (n > 0 && n % 2 == 0 && PowerOfTwo(n / 2))
  }

  lemma {:induction false} PowerAboveIsPower(size: nat)
    ensures PowerOfTwo(PowerAbove(size))
  {
    if size > 0 {
      PowerAboveIsPower(size / 2);
      assert PowerAbove(size) / 2 == PowerAbove(size / 2);
    }
  }

  /** The size is the least power of two that is at least 8 and exceeds the request. */
  lemma NormalizeIsLeast(size: nat, q: nat)
    requires PowerOfTwo(q) && q >= 8 && q > size
    ensures PowerOfTwo(NormalizeSize(size)) && NormalizeSize(size) <= q
  {
    PowerAboveIsPower(size);
    assert PowerOfTwo(8) by { assert PowerOfTwo(4); }
    PowerAboveIsLeast(size, q);
  }

  lemma {:induction false} PowerAboveIsLeast(size: nat, q: nat)
    requires PowerOfTwo(q) && q > size
    ensures PowerAbove(size) <= q
  {
    if size > 0 {
      PowerAboveIsLeast(size / 2, q / 2);
    }
  }

  lemma NormalizeIsPower(size: nat)
    ensures PowerOfTwo(NormalizeSize(size))
  {
    PowerAboveIsPower(size);
    assert PowerOfTwo(8) by { assert PowerOfTwo(4); }
  }

  /** The size that try_shrink asks for is a smaller one, and leaves the table neither sparse nor full. */
  lemma NormalizeFits(used: nat, size: nat)
    requires used * 10 < size - 1 && size >= 16 && PowerOfTwo(size)
    ensures var p := NormalizeSize((used + 1) * 5 / 3 + 1);
      p <= size && (p <= 8 || used * 10 >= p - 1) && p > used
  {
    NormalizeIsLeast((used + 1) * 5 / 3 + 1, size);
  }

  lemma PowersFrom8(size: nat)
    requires PowerOfTwo(size) && size > 8
    ensures size >= 16
  {
    PowerAboveIsLeast(8, size);
    assert PowerAbove(2) == 4 && PowerAbove(8) == 4 * PowerAbove(2);
  }

  const INVALID_BUCKET: nat := 0xFFFF_FFFF

  /** What erase_node started from: the table after clearing bucket e0, the remaining entries, another empty bucket. */
  datatype Erasing = Erasing(t0: Table, m: map<Key, Value>, e0: nat, z: nat)

  class FlatHashTable {
    const hash: Key -> nat
    var nodes: array?<Node>
    var used: nat
    var mask: nat
    var bucketCount: nat
    var beginBucket: nat
    ghost var contents: map<Key, Value>

    /** The buckets hold the contents, and one of them is empty, so that every probe ends. */
    ghost predicate Stored()
      reads this, nodes
    {
      && nodes != null
      && nodes.Length == bucketCount && bucketCount >= 8 && mask == bucketCount - 1 && PowerOfTwo(bucketCount)
      && Holds(nodes[..], hash, contents)
      && used == Count(nodes[..]) && used < bucketCount
    }

    ghost predicate Valid()
      reads this, nodes
    {
      if nodes == null then used == 0 && mask == 0 && bucketCount == 0 && contents == map[]
      else
        && Stored()
        && used * 5 < mask * 3 + 5
        && (beginBucket != INVALID_BUCKET ==> beginBucket < bucketCount && !nodes[beginBucket].Empty())
    }

    /** A table of more than 8 buckets is at least a tenth full. */
    predicate NotSparse()
      reads this
    {
      mask <= 7 || used * 10 >= mask
    }

    constructor (hash: Key -> nat)
      ensures Valid() && contents == map[] && this.hash == hash && nodes == null
    {
      this.hash := hash;
      nodes := null;
      used, mask, bucketCount, beginBucket := 0, 0, 0, 0;
      contents := map[];
    }

    /** The number of entries is kept in used_node_count_. */
    function Size(): (n: nat)
      requires Valid()
      reads this, nodes
      ensures n == |contents|
    {
      assert nodes != null ==> |contents| == Count(nodes[..]) by {
        if nodes != null { OneMap(nodes[..], contents); }
      }
      used
    }

    /** The loop of find_impl and emplace: the bucket of the key, or the empty bucket that ends its probe. */
    method Probe(key: Key) returns (bucket: nat)
      requires Stored() && key != EMPTY
      ensures bucket < nodes.Length && Passed(nodes[..], hash, key, bucket)
      ensures nodes[bucket].Empty() || nodes[bucket].key == key
    {
      ghost var t := nodes[..];
      ghost var z := SomeEmpty(t);
      bucket := Home(hash, key, bucketCount);
      while !nodes[bucket].Empty() && nodes[bucket].key != key
        invariant bucket < nodes.Length && Passed(t, hash, key, bucket)
        decreases nodes.Length - Dist(Home(hash, key, nodes.Length), bucket, nodes.Length)
      {
        PassedNext(t, hash, key, bucket, z);
        bucket := if bucket + 1 < bucketCount then bucket + 1 else 0;
      }
    }

    /** find_impl: the node of the key, if the table holds the key. */
    method Find(key: Key) returns (bucket: int)
      requires Valid()
      ensures key in contents <==> bucket >= 0
      ensures bucket >= 0 ==> nodes != null && bucket < nodes.Length && nodes[bucket] == Node(key, contents[key])
    {
      if nodes == null || key == EMPTY {
        return -1;
      }
      var b := Probe(key);
      if nodes[b].Empty() {
        AbsentAtEmpty(nodes[..], hash, contents, key, b);
        bucket := -1;
      } else {
        PresentAt(nodes[..], contents, key, b);
        bucket := b;
      }
    }

    method AllocateNodes(size: nat)
      requires size >= 8 && PowerOfTwo(size)
      modifies this`nodes, this`mask, this`bucketCount, this`beginBucket
      ensures nodes != null && fresh(nodes) && nodes.Length == size && bucketCount == size && mask == size - 1
      ensures forall p :: 0 <= p < size ==> nodes[p] == NO_NODE
      ensures beginBucket == INVALID_BUCKET
    {
      nodes := new Node[size](_ => NO_NODE);
      mask, bucketCount, beginBucket := size - 1, size, INVALID_BUCKET;
    }

    /** The new table holds the same entries. */
    method Resize(newSize: nat)
      requires if nodes == null then Valid() else Stored()
      requires newSize >= 8 && PowerOfTwo(newSize) && newSize > used
      modifies this
      ensures Stored() && fresh(nodes) && bucketCount == newSize
      ensures contents == old(contents) && used == old(used) && beginBucket == INVALID_BUCKET
    {
      if nodes == null {
        AllocateNodes(newSize);
        used := 0;
        NoneHolds(nodes[..], hash);
        return;
      }
      var oldNodes, oldSize := nodes, used;
      AllocateNodes(newSize);
      used := oldSize;
      NoneHolds(nodes[..], hash);
      Rehash(oldNodes);
      OneMap(oldNodes[..], contents);
    }

    /** The outer loop of resize. */
    method Rehash(oldNodes: array<Node>)
      requires nodes != null && nodes != oldNodes && nodes.Length == bucketCount && Count(oldNodes[..]) < nodes.Length
      requires Unique(oldNodes[..]) && Holds(nodes[..], hash, map[]) && Count(nodes[..]) == 0
      modifies nodes
      ensures Holds(nodes[..], hash, Entries(oldNodes[..])) && Count(nodes[..]) == Count(oldNodes[..])
    {
      ghost var was := oldNodes[..];
      var i := 0;
      while i < oldNodes.Length
        invariant i <= |was| && oldNodes[..] == was
        invariant Holds(nodes[..], hash, Entries(was[..i])) && Count(nodes[..]) == Count(was[..i])
      {
        assert was[..i + 1][..i] == was[..i];
        if !oldNodes[i].Empty() {
          AbsentBefore(was, i);
          CountPrefix(was, i);
          Place(oldNodes[i], Entries(was[..i]));
        }
        i := i + 1;
      }
      assert was[..i] == was;
    }

    /** The inner loop of resize, which needs no comparison of keys. */
    method Place(node: Node, ghost m: map<Key, Value>)
      requires nodes != null && nodes.Length == bucketCount
      requires Holds(nodes[..], hash, m) && !node.Empty() && node.key !in m && Count(nodes[..]) < nodes.Length
      modifies nodes
      ensures Holds(nodes[..], hash, m[node.key := node.value]) && Count(nodes[..]) == old(Count(nodes[..])) + 1
    {
      ghost var t := nodes[..];
      ghost var z := SomeEmpty(t);
      var bucket: nat := Home(hash, node.key, bucketCount);
      while !nodes[bucket].Empty()
        invariant bucket < nodes.Length && Passed(t, hash, node.key, bucket) && nodes[..] == t
        decreases nodes.Length - Dist(Home(hash, node.key, nodes.Length), bucket, nodes.Length)
      {
        PassedNext(t, hash, node.key, bucket, z);
        bucket := if bucket + 1 < bucketCount then bucket + 1 else 0;
      }
      PutNode(bucket, node, m);
    }

    /** Doubling makes room. */
    method Grow()
      requires Valid() && nodes != null
      modifies this
      ensures Valid() && fresh(nodes) && contents == old(contents) && used * 5 < mask * 3
      ensures used == old(used) && bucketCount == 2 * old(bucketCount)
    {
      assert PowerOfTwo(2 * bucketCount);
      Resize(2 * bucketCount);
    }

    method PutNode(bucket: nat, node: Node, ghost m: map<Key, Value>)
      requires nodes != null && bucket < nodes.Length && nodes[bucket].Empty() && !node.Empty() && node.key !in m
      requires Holds(nodes[..], hash, m) && Passed(nodes[..], hash, node.key, bucket)
      modifies nodes
      ensures Holds(nodes[..], hash, m[node.key := node.value]) && Count(nodes[..]) == old(Count(nodes[..])) + 1
      ensures nodes[bucket] == node
    {
      ghost var t := nodes[..];
      InsertHolds(t, hash, m, node.key, node.value, bucket);
      nodes[bucket] := node;
      assert nodes[..] == t[bucket := node];
    }

    method Fill(bucket: nat, key: Key, value: Value)
      requires Stored() && used * 5 < mask * 3 && key != EMPTY && key !in contents
      requires bucket < nodes.Length && Passed(nodes[..], hash, key, bucket) && nodes[bucket].Empty()
      modifies this`beginBucket, this`used, this`contents, nodes
      ensures Valid() && contents == old(contents)[key := value] && nodes[bucket] == Node(key, value)
      ensures used == old(used) + 1
    {
      beginBucket := INVALID_BUCKET;
      PutNode(bucket, Node(key, value), contents);
      used := used + 1;
      contents := contents[key := value];
    }

    /** Adds the entry unless the key is there, and returns its bucket. */
    method Emplace(key: Key, value: Value) returns (bucket: nat, inserted: bool)
      requires Valid() && key != EMPTY
      modifies this, nodes
      ensures Valid() && (nodes == old(nodes) || fresh(nodes))
      ensures inserted == (key !in old(contents))
      ensures contents == if inserted then old(contents)[key := value] else old(contents)
      ensures nodes != null && bucket < nodes.Length && nodes[bucket] == Node(key, contents[key])
      ensures used == if inserted then old(used) + 1 else old(used)
      ensures bucketCount == if old(nodes) == null then 8
                             else if inserted && old(used) * 5 >= old(mask) * 3 then 2 * old(bucketCount) else old(bucketCount)
      decreases used * 5 >= mask * 3
    {
      if mask == 0 {
        assert PowerOfTwo(8) by { assert PowerOfTwo(4); }
        Resize(8);
      }
      bucket := Probe(key);
      if nodes[bucket].Empty() {
        AbsentAtEmpty(nodes[..], hash, contents, key, bucket);
        if used * 5 >= mask * 3 {
          Grow();
          bucket, inserted := Emplace(key, value);
          return;
        }
        Fill(bucket, key, value);
        inserted := true;
      } else {
        PresentAt(nodes[..], contents, key, bucket);
        inserted := false;
      }
    }

    // ----- erasing

    /** *it = std::move(*test_node) */
    method MoveNode(to: nat, from: nat)
      requires nodes != null && to < nodes.Length && from < nodes.Length && to != from
      modifies nodes
      ensures nodes[..] == Shift(old(nodes[..]), to, from)
    {
      ghost var t := nodes[..];
      nodes[to] := nodes[from];
      nodes[from] := NO_NODE;
      assert nodes[..] == Shift(t, to, from);
    }

    /** One turn of either loop of erase_node, at the bucket d steps after the erased one. */
    method ShiftOne(ghost s: Erasing, hole: nat, test: nat, moves: bool, ghost d: nat) returns (hole': nat)
      requires ShiftingAt(s, hole, d) && d < nodes.Length
      requires test == At(s.e0, d, nodes.Length) && !nodes[test].Empty()
      requires hole < nodes.Length && moves == OnPath(Home(hash, nodes[test].key, nodes.Length), hole, test, nodes.Length)
      modifies nodes
      ensures hole' == if moves then test else hole
      ensures ShiftingAt(s, hole', d + 1)
    {
      if moves {
        ShiftMove(s, hole, test, d);
        hole' := test;
      } else {
        ShiftKeep(s, hole, test, d);
        hole' := hole;
      }
    }

    method ShiftMove(ghost s: Erasing, hole: nat, test: nat, ghost d: nat)
      requires ShiftingAt(s, hole, d) && d < nodes.Length
      requires test == At(s.e0, d, nodes.Length) && !nodes[test].Empty()
      requires hole < nodes.Length && OnPath(Home(hash, nodes[test].key, nodes.Length), hole, test, nodes.Length)
      modifies nodes
      ensures ShiftingAt(s, test, d + 1)
    {
      ghost var t := nodes[..];
      assert t[test] == nodes[test];
      ShiftMoved(s, hash, t, hole, test, d);
      MoveNode(hole, test);
    }

    lemma ShiftKeep(s: Erasing, hole: nat, test: nat, d: nat)
      requires ShiftingAt(s, hole, d) && d < nodes.Length
      requires test == At(s.e0, d, nodes.Length) && !nodes[test].Empty()
      requires hole < nodes.Length && !OnPath(Home(hash, nodes[test].key, nodes.Length), hole, test, nodes.Length)
      ensures ShiftingAt(s, hole, d + 1)
    {
      ShiftKeeps(s.t0, nodes[..], hash, s.m, s.e0, hole, d);
      ShiftInRange(s.t0, nodes[..], hash, s.m, s.e0, hole, d + 1, s.z);
    }

    /** The hole is at e and the next bucket to look at is d steps after the erased one. */
    ghost predicate ShiftingAt(s: Erasing, e: nat, d: nat)
      reads this, nodes
    {
      var all :=
        && nodes != null && nodes.Length == bucketCount
        && Shifting(s.t0, nodes[..], hash, s.m, s.e0, e, d)
        && s.z < |s.t0| && s.z != s.e0 && s.t0[s.z].Empty() && d <= Dist(s.e0, s.z, |s.t0|);
      all
    }

    ghost predicate Erased(s: Erasing)
      reads this, nodes
    {
      var all := nodes != null && nodes.Length == bucketCount
        && Holds(nodes[..], hash, s.m) && Count(nodes[..]) == Count(s.t0) && ShiftedUpTo(s.t0, nodes[..], s.e0);
      all
    }

    /** An empty bucket ends the shift. */
    lemma ShiftIsDone(s: Erasing, hole: nat, d: nat)
      requires ShiftingAt(s, hole, d) && d < nodes.Length && s.e0 < nodes.Length && nodes[At(s.e0, d, nodes.Length)].Empty()
      ensures Erased(s)
    {
      ShiftEnds(s.t0, nodes[..], hash, s.m, s.e0, hole, d);
    }

    method LookHere(ghost s: Erasing, hole: nat, test: nat, ghost d: nat) returns (done: bool, hole': nat)
      requires s.e0 <= hole < test < bucketCount && ShiftingAt(s, hole, d) && d == test - s.e0
      modifies nodes
      ensures done ==> Erased(s)
      ensures !done ==> hole <= hole' <= test && ShiftingAt(s, hole', d + 1)
    {
      if nodes[test].Empty() {
        ShiftIsDone(s, hole, d);
        return true, hole;
      }
      var want := Home(hash, nodes[test].key, bucketCount);
      var moves := want <= hole || want > test;
      WantedCrossesHere(want, hole, test, bucketCount);
      hole' := ShiftOne(s, hole, test, moves, d);
      done := false;
    }

    method LookWrapped(ghost s: Erasing, emptyI: nat, emptyBucket: nat, testI: nat, ghost d: nat)
      returns (done: bool, emptyI': nat, emptyBucket': nat)
      requires s.e0 <= emptyI < testI && bucketCount <= testI && s.e0 < bucketCount && testI == s.e0 + d
      requires emptyBucket == if emptyI < bucketCount then emptyI else emptyI - bucketCount
      requires ShiftingAt(s, emptyBucket, d)
      modifies nodes
      ensures done ==> Erased(s)
      ensures d < bucketCount
      ensures !done ==> s.e0 <= emptyI' <= testI && ShiftingAt(s, emptyBucket', d + 1)
      ensures !done ==> emptyBucket' == if emptyI' < bucketCount then emptyI' else emptyI' - bucketCount
    {
      StepsAreFew(s, emptyBucket, d);
      var testBucket := testI - bucketCount;
      if nodes[testBucket].Empty() {
        ShiftIsDone(s, emptyBucket, d);
        return true, emptyI, emptyBucket;
      }
      ghost var home := Home(hash, nodes[testBucket].key, bucketCount);
      var wantI := Home(hash, nodes[testBucket].key, bucketCount);
      if wantI < emptyI { wantI := wantI + bucketCount; }
      var moves := wantI <= emptyI || wantI > testI;
      WantedCrosses(home, emptyI, testI, bucketCount);
      emptyBucket' := ShiftOne(s, emptyBucket, testBucket, moves, d);
      done, emptyI' := false, if moves then testI else emptyI;
    }

    /** The two loops of erase_node: up to the end of the array, and from its start on with indices that go on counting. */
    method ShiftBack(ghost s: Erasing, it: nat)
      requires it == s.e0 < bucketCount && ShiftingAt(s, it, 1)
      modifies nodes
      ensures Erased(s)
    {
      var hole, test, done := it, it + 1, false;
      ghost var d := 1;
      while test != bucketCount
        invariant it <= hole < test <= bucketCount && d == test - it && ShiftingAt(s, hole, d)
      {
        done, hole := LookHere(s, hole, test, d);
        if done { return; }
        test, d := test + 1, d + 1;
      }
      ShiftWrapped(s, hole, d);
    }

    method ShiftWrapped(ghost s: Erasing, it: nat, ghost d0: nat)
      requires s.e0 <= it < bucketCount && ShiftingAt(s, it, d0) && d0 == bucketCount - s.e0
      modifies nodes
      ensures Erased(s)
    {
      var emptyI, emptyBucket, testI, done := it, it, bucketCount, false;
      ghost var d := d0;
      while true
        invariant bucketCount <= testI == s.e0 + d && s.e0 <= emptyI < testI
        invariant emptyBucket == if emptyI < bucketCount then emptyI else emptyI - bucketCount
        invariant ShiftingAt(s, emptyBucket, d)
        decreases bucketCount - d
      {
        done, emptyI, emptyBucket := LookWrapped(s, emptyI, emptyBucket, testI, d);
        if done { return; }
        testI, d := testI + 1, d + 1;
      }
    }

    lemma StepsAreFew(s: Erasing, e: nat, d: nat)
      requires ShiftingAt(s, e, d)
      ensures d < bucketCount
    {
    }

    /** Removes one entry; only buckets up to the next empty one change. */
    method EraseNode(it: nat)
      requires Stored() && it < bucketCount && !nodes[it].Empty()
      modifies this`used, this`contents, nodes
      ensures Stored() && contents == old(contents) - {old(nodes[it].key)} && used == old(used) - 1
      ensures ShiftedUpTo(old(nodes[..])[it := NO_NODE], nodes[..], it)
    {
      ghost var m := contents - {nodes[it].key};
      ClearAndShift(it);
      used := used - 1;
      contents := m;
    }

    /** it->clear() and the two loops. */
    method ClearAndShift(it: nat)
      requires Stored() && it < bucketCount && !nodes[it].Empty()
      modifies nodes
      ensures Holds(nodes[..], hash, contents - {old(nodes[it].key)}) && Count(nodes[..]) == old(Count(nodes[..])) - 1
      ensures ShiftedUpTo(old(nodes[..])[it := NO_NODE], nodes[..], it)
    {
      ghost var t := nodes[..];
      ghost var z := SomeEmpty(t);
      ghost var s := Erasing(t[it := NO_NODE], contents - {nodes[it].key}, it, z);
      ShiftStarts(t, hash, contents, it);
      nodes[it] := NO_NODE;
      assert nodes[..] == s.t0;
      ShiftInRange(s.t0, s.t0, hash, s.m, it, it, 1, z);
      ShiftBack(s, it);
    }

    method TryShrink()
      requires Stored() && used * 5 < mask * 3 + 5
      modifies this
      ensures Valid() && nodes != null && contents == old(contents) && (nodes == old(nodes) || fresh(nodes))
      ensures NotSparse() && used == old(used) && bucketCount <= old(bucketCount)
      ensures nodes == old(nodes) <==> old(used) * 10 >= old(mask) || old(mask) <= 7
    {
      if used * 10 < mask && mask > 7 {
        PowersFrom8(bucketCount);
        NormalizeFits(used, bucketCount);
        NormalizeIsPower((used + 1) * 5 / 3 + 1);
        Resize(NormalizeSize((used + 1) * 5 / 3 + 1));
      }
      beginBucket := INVALID_BUCKET;
    }

    /** Removes the entry of the key, if there is one. */
    method Erase(key: Key) returns (count: nat)
      requires Valid()
      modifies this, nodes
      ensures Valid() && contents == old(contents) - {key} && (nodes == old(nodes) || fresh(nodes))
      ensures count == if key in old(contents) then 1 else 0
      ensures if count == 1 then NotSparse() else nodes == old(nodes) && bucketCount == old(bucketCount)
    {
      var bucket := Find(key);
      if bucket < 0 {
        assert contents == contents - {key};
        return 0;
      }
      EraseNode(bucket);
      TryShrink();
      count := 1;
    }

    method Clear()
      requires Valid()
      modifies this
      ensures Valid() && contents == map[] && nodes == null
    {
      nodes := null;
      used, mask, bucketCount, beginBucket := 0, 0, 0, 0;
      contents := map[];
    }

    /** Makes room: size entries will fit without a resize. */
    method Reserve(size: nat)
      requires Valid()
      modifies this
      ensures Valid() && contents == old(contents) && (nodes == old(nodes) || fresh(nodes))
      ensures size > 0 ==> nodes != null && size * 5 < mask * 3
      ensures bucketCount == if size > 0 && NormalizeSize(size * 5 / 3 + 1) > old(bucketCount) then NormalizeSize(size * 5 / 3 + 1) else old(bucketCount)
    {
      if size == 0 {
        return;
      }
      var wantSize := NormalizeSize(size * 5 / 3 + 1);
      NormalizeIsPower(size * 5 / 3 + 1);
      if wantSize > bucketCount {
        Resize(wantSize);
      }
    }

    // ----- iterating

    /** The bucket where iteration starts: a random one, moved on to an entry, and then remembered. */
    method BeginImpl(random: nat) returns (bucket: nat)
      requires Valid() && used > 0
      modifies this`beginBucket
      ensures Valid() && nodes != null && bucket < bucketCount && !nodes[bucket].Empty()
    {
      if beginBucket == INVALID_BUCKET {
        ghost var t := nodes[..];
        ghost var z := SomeUsed(t);
        var b: nat := Home(_ => random, EMPTY, bucketCount);
        while nodes[b].Empty()
          invariant b < nodes.Length
          decreases Dist(b, z, nodes.Length)
        {
          b := if b + 1 < bucketCount then b + 1 else 0;
        }
        beginBucket := b;
      }
      bucket := beginBucket;
    }

    /** Iterator::operator++: the next used bucket, or none if that is the start again. */
    method NextBucket(ghost keys: seq<Key>, start: nat, it: nat, ghost o: nat) returns (done: bool, it': nat, ghost o': nat)
      requires nodes != null && nodes.Length == bucketCount && start < bucketCount && o < bucketCount
      requires it == At(start, o, bucketCount) && VisitedUpTo(nodes[..], keys, start, o + 1)
      ensures o < o' <= bucketCount && VisitedUpTo(nodes[..], keys, start, o')
      ensures done ==> o' == bucketCount
      ensures !done ==> o' < bucketCount && it' == At(start, o', bucketCount) && !nodes[it'].Empty()
    {
      it', o' := it, o;
      while true
        invariant o <= o' < bucketCount && it' == At(start, o', bucketCount)
        invariant VisitedUpTo(nodes[..], keys, start, o' + 1)
        decreases bucketCount - o'
      {
        it', o' := it' + 1, o' + 1;
        if it' == bucketCount { it' := 0; }
        if it' == start {
          return true, it', o';
        }
        if !nodes[it'].Empty() {
          return false, it', o';
        }
        SkipOne(nodes[..], keys, start, o');
      }
    }

    /** Iteration from begin() with operator++ meets every entry once. */
    method Iterate(random: nat) returns (keys: seq<Key>)
      requires Valid()
      modifies this`beginBucket
      ensures Valid()
      ensures NoDuplicates(keys) && forall k :: k in keys <==> k in contents
    {
      if used == 0 {
        NothingStored();
        keys := [];
      } else {
        var start := BeginImpl(random);
        keys := IterateFrom(start);
      }
    }

    method IterateFrom(start: nat) returns (keys: seq<Key>)
      requires Stored() && start < bucketCount && !nodes[start].Empty()
      ensures NoDuplicates(keys) && forall k :: k in keys <==> k in contents
    {
      keys := [];
      var it, done := start, false;
      ghost var o := 0;
      while !done
        invariant !done ==> o < bucketCount && it == At(start, o, bucketCount) && !nodes[it].Empty()
        invariant o <= bucketCount && VisitedUpTo(nodes[..], keys, start, o) && (done ==> o == bucketCount)
        decreases !done, bucketCount - o
      {
        VisitOne(nodes[..], keys, start, o);
        keys := keys + [nodes[it].key];
        done, it, o := NextBucket(keys, start, it, o);
      }
      VisitedAll(nodes[..], hash, contents, keys, start, o);
    }

    lemma NothingStored()
      requires Valid() && used == 0
      ensures contents == map[]
    {
      if nodes != null { OneMap(nodes[..], contents); }
    }

    // ----- remove_if

    /** The body of both loops of remove_if, at the bucket o steps after the empty bucket it started from. */
    method TestBucket(f: (Key, Value) -> bool, it: nat, ghost m0: map<Key, Value>, ghost log: seq<Key>, ghost ff: nat, ghost o: nat)
      returns (erased: bool, ghost log': seq<Key>)
      requires Stored() && Removing(nodes[..], hash, f, m0, contents, log, ff, o)
      requires o < bucketCount && ff < bucketCount && it == At(ff, o, bucketCount)
      modifies this`used, this`contents, nodes
      ensures Stored() && used == old(used) - (if erased then 1 else 0)
      ensures Removing(nodes[..], hash, f, m0, contents, log', ff, if erased then o else o + 1)
    {
      ghost var t, m := nodes[..], contents;
      if !nodes[it].Empty() && f(nodes[it].key, nodes[it].value) {
        EraseNode(it);
        RemovingErase(t, nodes[..], hash, f, m0, m, log, ff, o);
        erased, log' := true, log + [t[it].key];
      } else {
        RemovingPass(t, hash, f, m0, m, log, ff, o);
        erased, log' := false, if t[it].Empty() then log else log + [t[it].key];
      }
    }

    /** The empty bucket that remove_if starts from: the first one at or after begin, or else the last one before. */
    method FirstEmpty(begin: nat) returns (it: nat)
      requires Stored() && begin < bucketCount
      ensures it < bucketCount && nodes[it].Empty()
    {
      ghost var z := SomeEmpty(nodes[..]);
      assert nodes[z].Empty();
      it := begin;
      while it != bucketCount && !nodes[it].Empty()
        invariant begin <= it <= bucketCount
        invariant forall q :: begin <= q < it ==> !nodes[q].Empty()
      {
        it := it + 1;
      }
      if it == bucketCount {
        it := it - 1;
        while !nodes[it].Empty()
          invariant z <= it < bucketCount
          decreases it
        {
          it := it - 1;
        }
      }
    }

    /** Removes exactly the entries that satisfy f, and asks f once about each entry; log lists the questions. */
    method RemoveIf(f: (Key, Value) -> bool, random: nat) returns (ghost log: seq<Key>)
      requires Valid()
      modifies this, nodes
      ensures Valid() && (old(used) > 0 ==> NotSparse())
      ensures contents == map k | k in old(contents) && !f(k, old(contents)[k]) :: old(contents)[k]
      ensures NoDuplicates(log) && forall k :: k in log <==> k in old(contents)
    {
      log := [];
      if used == 0 {
        NothingStored();
        return;
      }
      var begin := BeginImpl(random);
      var firstEmpty := FirstEmpty(begin);
      log := RemoveAfter(f, firstEmpty);
      TryShrink();
    }

    method RemoveAfter(f: (Key, Value) -> bool, firstEmpty: nat) returns (ghost log: seq<Key>)
      requires Stored() && firstEmpty < bucketCount && nodes[firstEmpty].Empty()
      modifies this`used, this`contents, nodes
      ensures Stored() && used <= old(used)
      ensures contents == map k | k in old(contents) && !f(k, old(contents)[k]) :: old(contents)[k]
      ensures NoDuplicates(log) && forall k :: k in log <==> k in old(contents)
    {
      log := [];
      ghost var m0 := contents;
      RemovingStart(nodes[..], hash, f, m0, firstEmpty);
      ghost var o := 0;
      var it := firstEmpty;
      while it != bucketCount
        invariant Stored() && used <= old(used) && it == firstEmpty + o <= bucketCount
        invariant Removing(nodes[..], hash, f, m0, contents, log, firstEmpty, o)
        decreases bucketCount - it + used
      {
        var erased;
        erased, log := TestBucket(f, it, m0, log, firstEmpty, o);
        if !erased { it, o := it + 1, o + 1; }
      }
      it := 0;
      while it != firstEmpty
        invariant Stored() && used <= old(used) && it <= firstEmpty && it + bucketCount == firstEmpty + o
        invariant Removing(nodes[..], hash, f, m0, contents, log, firstEmpty, o)
        decreases firstEmpty - it + used
      {
        var erased;
        erased, log := TestBucket(f, it, m0, log, firstEmpty, o);
        if !erased { it, o := it + 1, o + 1; }
      }
      RemovingEnds(nodes[..], hash, f, m0, contents, log, firstEmpty);
    }
  }

  lemma AbsentBefore(was: Table, i: nat)
    requires Unique(was) && i < |was| && !was[i].Empty()
    ensures was[i].key !in Entries(was[..i])
  {
    EntriesAgree(was[..i]);
    forall p | 0 <= p < i ensures was[..i][p].key != was[i].key {
    }
  }

  lemma {:induction false} CountPrefix(was: Table, i: nat)
    requires i < |was| && !was[i].Empty()
    ensures Count(was[..i]) < Count(was)
    decreases |was|
  {
    if i == |was| - 1 {
    } else {
      var u := was[..|was| - 1];
      assert u[..i] == was[..i];
      CountPrefix(u, i);
    }
  }

  /** A move of the shift, with the bucket to look at next. */
  lemma ShiftMoved(s: Erasing, hash: Key -> nat, t: Table, hole: nat, test: nat, d: nat)
    requires Shifting(s.t0, t, hash, s.m, s.e0, hole, d) && d < |t| && test == At(s.e0, d, |t|) && !t[test].Empty()
    requires hole < |t| && OnPath(Home(hash, t[test].key, |t|), hole, test, |t|)
    requires s.z < |s.t0| && s.z != s.e0 && s.t0[s.z].Empty()
    ensures test != hole && Shifting(s.t0, Shift(t, hole, test), hash, s.m, s.e0, test, d + 1)
    ensures d + 1 <= Dist(s.e0, s.z, |s.t0|)
  {
    ShiftMoves(s.t0, t, hash, s.m, s.e0, hole, d);
    HoleIsBefore(s.e0, hole, d, |t|);
    ShiftInRange(s.t0, Shift(t, hole, test), hash, s.m, s.e0, test, d + 1, s.z);
  }

  lemma HoleIsBefore(e0: nat, hole: nat, d: nat, n: nat)
    requires e0 < n && hole < n && Dist(e0, hole, n) < d < n
    ensures hole != At(e0, d, n)
  {
  }

  /** The comparison of erase_node before the end of the array: does the probe of the entry cross the hole? */
  lemma WantedCrossesHere(want: nat, hole: nat, test: nat, n: nat)
    requires want < n && hole < test < n
    ensures (want <= hole || want > test) <==> OnPath(want, hole, test, n)
  {
  }

  /** The comparison of erase_node beyond the end of the array: does the probe of the entry cross the hole? */
  lemma WantedCrosses(home: nat, emptyI: nat, testI: nat, n: nat)
    requires home < n && emptyI < testI < emptyI + n && n <= testI < 2 * n
    ensures var wantI := if home < emptyI then home + n else home;
      var e := if emptyI < n then emptyI else emptyI - n;
      (wantI <= emptyI || wantI > testI) <==> OnPath(home, e, testI - n, n)
  {
  }

  // ----- visiting every bucket once

  ghost predicate NoDuplicates(keys: seq<Key>) {
    forall i, j :: 0 <= i < j < |keys| ==> keys[i] != keys[j]
  }

  /** The keys are those of the entries less than o steps after start, each once. */
  ghost predicate VisitedUpTo(t: Table, keys: seq<Key>, start: nat, o: nat) {
    var all :=
      && start < |t| && o <= |t| && Unique(t) && NoDuplicates(keys)
      && (forall p :: 0 <= p < |t| && !t[p].Empty() ==> (t[p].key in keys <==> Dist(start, p, |t|) < o))
      && (forall k :: k in keys ==> KeyIn(t, k));
    all
  }

  ghost predicate KeyIn(t: Table, k: Key) {
    exists p :: 0 <= p < |t| && !t[p].Empty() && t[p].key == k
  }

  lemma SameBucket(start: nat, p: nat, o: nat, n: nat)
    requires start < n && p < n && o < n
    ensures Dist(start, p, n) == o <==> p == At(start, o, n)
  {
  }

  lemma VisitOne(t: Table, keys: seq<Key>, start: nat, o: nat)
    requires VisitedUpTo(t, keys, start, o) && o < |t| && !t[At(start, o, |t|)].Empty()
    ensures VisitedUpTo(t, keys + [t[At(start, o, |t|)].key], start, o + 1)
  {
    var b := At(start, o, |t|);
    DistAt(start, o, |t|);
    assert KeyIn(t, t[b].key);
    forall p | 0 <= p < |t| ensures Dist(start, p, |t|) == o <==> p == b {
      SameBucket(start, p, o, |t|);
    }
  }

  lemma SkipOne(t: Table, keys: seq<Key>, start: nat, o: nat)
    requires VisitedUpTo(t, keys, start, o) && o < |t| && t[At(start, o, |t|)].Empty()
    ensures VisitedUpTo(t, keys, start, o + 1)
  {
    forall p | 0 <= p < |t| ensures Dist(start, p, |t|) == o <==> p == At(start, o, |t|) {
      SameBucket(start, p, o, |t|);
    }
  }

  lemma VisitedAll(t: Table, hash: Key -> nat, m: map<Key, Value>, keys: seq<Key>, start: nat, o: nat)
    requires Holds(t, hash, m) && VisitedUpTo(t, keys, start, o) && o == |t|
    ensures forall k :: k in keys <==> k in m
  {
    forall k | k in m ensures k in keys {
      var p :| 0 <= p < |t| && t[p] == Node(k, m[k]);
    }
    forall k | k in keys ensures k in m {
      assert KeyIn(t, k);
    }
  }

  // ----- removing by predicate

  /**
   * remove_if has passed the buckets less than o steps after the empty bucket ff: the entries
   * there were asked about and stay, those gone were asked about and satisfied f, and no other
   * entry was asked about.
   */
  ghost predicate Removing(t: Table, hash: Key -> nat, f: (Key, Value) -> bool, m0: map<Key, Value>, m: map<Key, Value>,
                           log: seq<Key>, ff: nat, o: nat)
  {
    var all :=
      && Holds(t, hash, m) && ff < |t| && t[ff].Empty() && o <= |t| && NoDuplicates(log)
      && (forall k :: k in m ==> k in m0 && m[k] == m0[k])
      && (forall k :: k in m0 && k !in m ==> f(k, m0[k]) && k in log)
      && (forall k :: k in log ==> k in m0)
      && (forall p :: 0 <= p < |t| && !t[p].Empty() ==> (t[p].key in log <==> Dist(ff, p, |t|) < o))
      && (forall p :: 0 <= p < |t| && !t[p].Empty() && Dist(ff, p, |t|) < o ==> !f(t[p].key, t[p].value));
    all
  }

  lemma RemovingStart(t: Table, hash: Key -> nat, f: (Key, Value) -> bool, m: map<Key, Value>, ff: nat)
    requires Holds(t, hash, m) && ff < |t| && t[ff].Empty()
    ensures Removing(t, hash, f, m, m, [], ff, 0)
  {
  }

  lemma RemovingPass(t: Table, hash: Key -> nat, f: (Key, Value) -> bool, m0: map<Key, Value>, m: map<Key, Value>,
                     log: seq<Key>, ff: nat, o: nat)
    requires Removing(t, hash, f, m0, m, log, ff, o) && o < |t|
    requires var node := t[At(ff, o, |t|)]; node.Empty() || !f(node.key, node.value)
    ensures var node := t[At(ff, o, |t|)];
      Removing(t, hash, f, m0, m, if node.Empty() then log else log + [node.key], ff, o + 1)
  {
    DistAt(ff, o, |t|);
    forall p | 0 <= p < |t| ensures Dist(ff, p, |t|) == o <==> p == At(ff, o, |t|) {
      SameBucket(ff, p, o, |t|);
    }
  }

  /** The shift after an erasure moves no entry that was passed. */
  lemma PassedStay(t: Table, t': Table, ff: nat, o: nat)
    requires ff < |t| && o < |t| && t[ff].Empty() && !t[At(ff, o, |t|)].Empty()
    requires ShiftedUpTo(t[At(ff, o, |t|) := NO_NODE], t', At(ff, o, |t|))
    ensures t'[ff].Empty() && forall p :: 0 <= p < |t| && Dist(ff, p, |t|) < o ==> t'[p] == t[p]
  {
    var it, n := At(ff, o, |t|), |t|;
    var t0 := t[it := NO_NODE];
    DistAt(ff, o, n);
    assert t0[ff].Empty() && ff != it;
    forall p | 0 <= p < n && Dist(ff, p, n) < o ensures t'[p] == t[p] {
      assert Dist(it, p, n) >= Dist(it, ff, n);
      assert t0[p] == t[p];
    }
    assert Dist(it, ff, n) >= Dist(it, ff, n) && t'[ff] == t0[ff];
  }

  lemma RemovingErase(t: Table, t': Table, hash: Key -> nat, f: (Key, Value) -> bool, m0: map<Key, Value>, m: map<Key, Value>,
                      log: seq<Key>, ff: nat, o: nat)
    requires Removing(t, hash, f, m0, m, log, ff, o) && o < |t|
    requires var node := t[At(ff, o, |t|)]; !node.Empty() && f(node.key, node.value) && Holds(t', hash, m - {node.key})
    requires ShiftedUpTo(t[At(ff, o, |t|) := NO_NODE], t', At(ff, o, |t|))
    ensures Removing(t', hash, f, m0, m - {t[At(ff, o, |t|)].key}, log + [t[At(ff, o, |t|)].key], ff, o)
  {
    var it, n := At(ff, o, |t|), |t|;
    var k := t[it].key;
    DistAt(ff, o, n);
    PassedStay(t, t', ff, o);
    forall p | 0 <= p < n && !t'[p].Empty() ensures t'[p].key in log + [k] <==> Dist(ff, p, n) < o {
      StillThere(t, t', m, k, p);
      var q :| 0 <= q < n && t[q] == t'[p];
      if Dist(ff, q, n) < o { assert t'[q] == t[q]; }
    }
  }

  lemma StillThere(t: Table, t': Table, m: map<Key, Value>, k: Key, p: nat)
    requires Agrees(t, m) && Agrees(t', m - {k}) && p < |t'| && !t'[p].Empty()
    ensures t'[p].key != k && HasNode(t, t'[p].key, t'[p].value)
  {
    assert t'[p].key in m - {k};
  }

  lemma RemovingEnds(t: Table, hash: Key -> nat, f: (Key, Value) -> bool, m0: map<Key, Value>, m: map<Key, Value>,
                     log: seq<Key>, ff: nat)
    requires Removing(t, hash, f, m0, m, log, ff, |t|)
    ensures m == map k | k in m0 && !f(k, m0[k]) :: m0[k]
    ensures NoDuplicates(log) && forall k :: k in log <==> k in m0
  {
    forall k | k in m ensures !f(k, m0[k]) && k in log {
      var p :| 0 <= p < |t| && t[p] == Node(k, m[k]);
    }
  }
}
