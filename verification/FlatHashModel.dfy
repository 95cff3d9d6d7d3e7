/**
 * What the open-addressing tables of pxcutils/pxc/utils/FlatHashTable.h keep true of their
 * array of buckets: linear probing from a key's home bucket, circularly, never crosses an
 * empty bucket before the key.
 */
module FlatHashModel {
  type Key = nat
  type Value = int

  const EMPTY: Key := 0

  datatype Node = Node(key: Key, value: Value) {
    predicate Empty() { key == EMPTY }
  }

  const NO_NODE := Node(EMPTY, 0)

  type Table = seq<Node>

  /** HashT()(key) & bucket_count_mask_, for a table of n = mask + 1 buckets, n a power of two. */
  function Home(hash: Key -> nat, k: Key, n: nat): (h: nat)
    requires n > 0
    ensures h < n
  {
    hash(k) % n
  }

  /** Steps of next_bucket from a to b. */
  function Dist(a: nat, b: nat, n: nat): (d: nat)
    requires a < n && b < n
    ensures d < n
  {
    if a <= b then b - a else b + n - a
  }

  /** The bucket d steps after a. */
  function At(a: nat, d: nat, n: nat): (b: nat)
    requires a < n && d <= n
    ensures b < n
  {
    if a + d < n then a + d else a + d - n
  }

  ghost predicate OnPath(h: nat, q: nat, p: nat, n: nat)
    requires h < n && q < n && p < n
  {
    Dist(h, q, n) <= Dist(h, p, n)
  }

  /** No bucket from the home of the entry at p up to p is empty. */
  ghost predicate Reach(t: Table, hash: Key -> nat, p: nat)
    requires p < |t|
  {
    !t[p].Empty() ==>
      forall q :: 0 <= q < |t| && OnPath(Home(hash, t[p].key, |t|), q, p, |t|) ==> !t[q].Empty()
  }

  ghost predicate Probes(t: Table, hash: Key -> nat) {
    forall p :: 0 <= p < |t| ==> Reach(t, hash, p)
  }

  ghost predicate Unique(t: Table) {
    forall p, q :: 0 <= p < |t| && 0 <= q < |t| && !t[p].Empty() && t[p].key == t[q].key ==> p == q
  }

  ghost predicate HasNode(t: Table, k: Key, v: Value) {
    exists p :: 0 <= p < |t| && t[p] == Node(k, v)
  }

  /** The table holds exactly the entries of the map. */
  ghost predicate Agrees(t: Table, m: map<Key, Value>) {
    && (forall p :: 0 <= p < |t| && !t[p].Empty() ==> t[p].key in m && m[t[p].key] == t[p].value)
    && (forall k :: k in m ==> k != EMPTY && HasNode(t, k, m[k]))
  }

  ghost predicate Holds(t: Table, hash: Key -> nat, m: map<Key, Value>) {
    && |t| > 0
    && Probes(t, hash) && Unique(t) && Agrees(t, m)
  }

  // ----- how many buckets are used

  function Count(t: Table): (c: nat)
    ensures c <= |t|
  {
    if t == [] then 0 else Count(t[..|t| - 1]) + (if t[|t| - 1].Empty() then 0 else 1)
  }

  lemma {:induction false} CountUpdate(t: Table, p: nat, node: Node)
    requires p < |t|
    ensures Count(t[p := node]) + (if t[p].Empty() then 0 else 1) == Count(t) + (if node.Empty() then 0 else 1)
  {
    var l := |t| - 1;
    if p == l {
      assert t[p := node][..l] == t[..l];
    } else {
      assert t[p := node][..l] == t[..l][p := node];
      CountUpdate(t[..l], p, node);
    }
  }

  lemma {:induction false} SomeEmpty(t: Table) returns (z: nat)
    requires Count(t) < |t|
    ensures z < |t| && t[z].Empty()
  {
    if t[|t| - 1].Empty() {
      z := |t| - 1;
    } else {
      z := SomeEmpty(t[..|t| - 1]);
    }
  }

  lemma {:induction false} SomeUsed(t: Table) returns (z: nat)
    requires Count(t) > 0
    ensures z < |t| && !t[z].Empty()
  {
    if !t[|t| - 1].Empty() {
      z := |t| - 1;
    } else {
      z := SomeUsed(t[..|t| - 1]);
    }
  }

  lemma {:induction false} CountNone(t: Table)
    requires forall p :: 0 <= p < |t| ==> t[p].Empty()
    ensures Count(t) == 0
  {
    if t != [] { CountNone(t[..|t| - 1]); }
  }

  /** The entries of a run of buckets. */
  ghost function Entries(t: Table): (m: map<Key, Value>) {
    if t == [] then map[]
    else
      var m := Entries(t[..|t| - 1]);
      var node := t[|t| - 1];
      if node.Empty() then m else m[node.key := node.value]
  }

  lemma {:induction false} EntriesAgree(t: Table)
    requires Unique(t)
    ensures Agrees(t, Entries(t)) && |Entries(t)| == Count(t)
  {
    if t != [] {
      var u, node, m := t[..|t| - 1], t[|t| - 1], Entries(t[..|t| - 1]);
      assert forall p :: 0 <= p < |u| ==> u[p] == t[p];
      EntriesAgree(u);
      assert node.Empty() || node.key !in m;
      forall k | k in Entries(t) ensures HasNode(t, k, Entries(t)[k]) {
        if !node.Empty() && k == node.key {
          assert t[|t| - 1] == Node(k, node.value);
        } else {
          var p :| 0 <= p < |u| && u[p] == Node(k, m[k]);
          assert t[p] == u[p];
        }
      }
    }
  }

  /** A table determines its map, and the number of used buckets is the size of the map. */
  lemma OneMap(t: Table, m: map<Key, Value>)
    requires Unique(t) && Agrees(t, m)
    ensures m == Entries(t) && |m| == Count(t)
  {
    EntriesAgree(t);
    var e := Entries(t);
    forall k | k in m ensures k in e && e[k] == m[k] {
      var p :| 0 <= p < |t| && t[p] == Node(k, m[k]);
    }
    forall k | k in e ensures k in m {
      var p :| 0 <= p < |t| && t[p] == Node(k, e[k]);
    }
  }

  /** A table with no entry. */
  lemma NoneHolds(t: Table, hash: Key -> nat)
    requires |t| > 0 && forall p :: 0 <= p < |t| ==> t[p].Empty()
    ensures Holds(t, hash, map[]) && Count(t) == 0
  {
    CountNone(t);
  }

  // ----- distances

  lemma DistSplit(h: nat, e: nat, p: nat, n: nat)
    requires h < n && e < n && p < n && OnPath(h, e, p, n)
    ensures Dist(h, p, n) == Dist(h, e, n) + Dist(e, p, n)
  {
  }

  lemma DistAt(a: nat, d: nat, n: nat)
    requires a < n && d < n
    ensures Dist(a, At(a, d, n), n) == d
  {
  }

  lemma AtDist(a: nat, b: nat, n: nat)
    requires a < n && b < n
    ensures At(a, Dist(a, b, n), n) == b
  {
  }

  // ----- searching

  /** The buckets from the home of k up to b, b excluded, hold other keys. */
  ghost predicate Passed(t: Table, hash: Key -> nat, k: Key, b: nat)
    requires b < |t|
  {
    forall q :: 0 <= q < |t| && Dist(Home(hash, k, |t|), q, |t|) < Dist(Home(hash, k, |t|), b, |t|) ==>
      !t[q].Empty() && t[q].key != k
  }

  /** The next bucket of a probe; an empty bucket somewhere keeps it from coming round. */
  lemma PassedNext(t: Table, hash: Key -> nat, k: Key, b: nat, z: nat)
    requires b < |t| && Passed(t, hash, k, b) && !t[b].Empty() && t[b].key != k
    requires z < |t| && t[z].Empty()
    ensures var h := Home(hash, k, |t|);
      && Dist(h, b, |t|) < Dist(h, z, |t|)
      && Dist(h, At(b, 1, |t|), |t|) == Dist(h, b, |t|) + 1
      && Passed(t, hash, k, At(b, 1, |t|))
  {
    var h, n := Home(hash, k, |t|), |t|;
    assert !(Dist(h, z, n) < Dist(h, b, n));
    AtDist(h, z, n);
    AtDist(h, b, n);
    forall q | 0 <= q < n && Dist(h, q, n) == Dist(h, b, n) ensures q == b {
      AtDist(h, q, n);
    }
  }

  /** A probe that meets an empty bucket has seen that the key is absent. */
  lemma AbsentAtEmpty(t: Table, hash: Key -> nat, m: map<Key, Value>, k: Key, b: nat)
    requires Holds(t, hash, m) && k != EMPTY && b < |t| && Passed(t, hash, k, b) && t[b].Empty()
    ensures k !in m
  {
    forall p | 0 <= p < |t| ensures t[p].key != k {
      assert Reach(t, hash, p);
    }
  }

  lemma PresentAt(t: Table, m: map<Key, Value>, k: Key, b: nat)
    requires Agrees(t, m) && Unique(t) && b < |t| && t[b].key == k != EMPTY
    ensures k in m && t[b] == Node(k, m[k])
  {
  }

  // ----- inserting

  /** A new key goes into the first empty bucket of its probe. */
  lemma InsertHolds(t: Table, hash: Key -> nat, m: map<Key, Value>, k: Key, v: Value, b: nat)
    requires Holds(t, hash, m) && k != EMPTY && k !in m && b < |t| && Passed(t, hash, k, b) && t[b].Empty()
    ensures Holds(t[b := Node(k, v)], hash, m[k := v]) && Count(t[b := Node(k, v)]) == Count(t) + 1
  {
    var t' := t[b := Node(k, v)];
    CountUpdate(t, b, Node(k, v));
    forall p | 0 <= p < |t'| ensures Reach(t', hash, p) {
      assert Reach(t, hash, p);
      if p == b { InsertReach(t, hash, k, v, b); }
    }
    var m' := m[k := v];
    forall l | l in m' ensures HasNode(t', l, m'[l]) {
      if l == k {
        assert t'[b] == Node(k, v);
      } else {
        var p :| 0 <= p < |t| && t[p] == Node(l, m[l]);
        assert t'[p] == t[p];
      }
    }
  }

  lemma InsertReach(t: Table, hash: Key -> nat, k: Key, v: Value, b: nat)
    requires k != EMPTY && b < |t| && Passed(t, hash, k, b)
    ensures Reach(t[b := Node(k, v)], hash, b)
  {
    var t', n := t[b := Node(k, v)], |t|;
    forall q | 0 <= q < n && OnPath(Home(hash, k, n), q, b, n) ensures !t'[q].Empty() {
      AtDist(Home(hash, k, n), q, n);
      AtDist(Home(hash, k, n), b, n);
    }
  }

  // ----- erasing with a backward shift

  /**
   * Bucket e is a hole: probes may cross it, but only those of entries at least d steps after it,
   * which are the ones not yet looked at.
   */
  ghost predicate Hole(t: Table, hash: Key -> nat, e: nat, d: nat)
    requires e < |t|
  {
    && t[e].Empty()
    && forall p :: 0 <= p < |t| ==> HoleReach(t, hash, e, d, p)
  }

  ghost predicate HoleReach(t: Table, hash: Key -> nat, e: nat, d: nat, p: nat)
    requires e < |t| && p < |t|
  {
    !t[p].Empty() ==>
      forall q :: 0 <= q < |t| && OnPath(Home(hash, t[p].key, |t|), q, p, |t|) ==>
        !t[q].Empty() || (q == e && Dist(e, p, |t|) >= d)
  }

  /** Clearing a bucket leaves a hole. */
  lemma ClearMakesHole(t: Table, hash: Key -> nat, m: map<Key, Value>, e: nat)
    requires Holds(t, hash, m) && e < |t| && !t[e].Empty()
    ensures var t' := t[e := NO_NODE];
      Hole(t', hash, e, 1) && Unique(t') && Agrees(t', m - {t[e].key}) && Count(t') == Count(t) - 1
  {
    var t' := t[e := NO_NODE];
    CountUpdate(t, e, NO_NODE);
    forall p | 0 <= p < |t| ensures HoleReach(t', hash, e, 1, p) {
      assert Reach(t, hash, p);
    }
    forall k | k in m - {t[e].key} ensures HasNode(t', k, m[k]) {
      var p :| 0 <= p < |t| && t[p] == Node(k, m[k]);
      assert t'[p] == t[p];
    }
  }

  /** An empty bucket after the hole ends the shift. */
  lemma HoleCloses(t: Table, hash: Key -> nat, e: nat, j: nat)
    requires e < |t| && j < |t| && j != e && Hole(t, hash, e, Dist(e, j, |t|)) && t[j].Empty()
    ensures Probes(t, hash)
  {
    forall p | 0 <= p < |t| ensures Reach(t, hash, p) {
      assert HoleReach(t, hash, e, Dist(e, j, |t|), p);
      if !t[p].Empty() {
        HoleUncrossed(t, hash, e, j, p);
      }
    }
  }

  lemma PathThrough(h: nat, e: nat, j: nat, p: nat, n: nat)
    requires h < n && e < n && j < n && p < n && OnPath(h, e, p, n) && Dist(e, j, n) <= Dist(e, p, n)
    ensures OnPath(h, j, p, n)
  {
  }

  lemma HoleUncrossed(t: Table, hash: Key -> nat, e: nat, j: nat, p: nat)
    requires e < |t| && j < |t| && j != e && p < |t| && !t[p].Empty() && t[j].Empty()
    requires HoleReach(t, hash, e, Dist(e, j, |t|), p)
    ensures Reach(t, hash, p)
  {
    var h, n := Home(hash, t[p].key, |t|), |t|;
    if OnPath(h, e, p, n) && Dist(e, p, n) >= Dist(e, j, n) {
      PathThrough(h, e, j, p, n);
    }
  }

  /** The entry d steps after the hole stays if its own probe does not cross the hole. */
  lemma HoleKeeps(t: Table, hash: Key -> nat, e: nat, j: nat)
    requires e < |t| && j < |t| && Hole(t, hash, e, Dist(e, j, |t|))
    requires !t[j].Empty() && !OnPath(Home(hash, t[j].key, |t|), e, j, |t|)
    ensures Hole(t, hash, e, Dist(e, j, |t|) + 1)
  {
    var n := |t|;
    var d' := Dist(e, j, n) + 1;
    forall p | 0 <= p < n ensures HoleReach(t, hash, e, d', p) {
      assert HoleReach(t, hash, e, Dist(e, j, n), p);
      if Dist(e, p, n) == Dist(e, j, n) {
        AtDist(e, p, n);
        AtDist(e, j, n);
      }
    }
  }

  function Shift(t: Table, e: nat, j: nat): Table
    requires e < |t| && j < |t|
  {
    t[e := t[j]][j := NO_NODE]
  }

  /** Otherwise it moves into the hole, and its old bucket is the hole. */
  lemma HoleMoves(t: Table, hash: Key -> nat, e: nat, j: nat)
    requires e < |t| && j < |t| && j != e && Hole(t, hash, e, Dist(e, j, |t|))
    requires !t[j].Empty() && OnPath(Home(hash, t[j].key, |t|), e, j, |t|)
    ensures Hole(Shift(t, e, j), hash, j, 1)
  {
    var t', n := Shift(t, e, j), |t|;
    forall p | 0 <= p < n ensures HoleReach(t', hash, j, 1, p) {
      if p == e {
        MovedReach(t, hash, e, j);
      } else {
        assert HoleReach(t, hash, e, Dist(e, j, n), p);
      }
    }
  }

  lemma MovedReach(t: Table, hash: Key -> nat, e: nat, j: nat)
    requires e < |t| && j < |t| && j != e && HoleReach(t, hash, e, Dist(e, j, |t|), j)
    requires !t[j].Empty() && OnPath(Home(hash, t[j].key, |t|), e, j, |t|)
    ensures HoleReach(Shift(t, e, j), hash, j, 1, e)
  {
    var t', n := Shift(t, e, j), |t|;
    var h := Home(hash, t[j].key, n);
    DistSplit(h, e, j, n);
    forall q | 0 <= q < n && OnPath(h, q, e, n) ensures !t'[q].Empty() {
      assert OnPath(h, q, j, n);
    }
  }

  lemma ShiftSame(t: Table, m: map<Key, Value>, e: nat, j: nat)
    requires e < |t| && j < |t| && j != e && t[e].Empty() && !t[j].Empty() && Unique(t) && Agrees(t, m)
    ensures Unique(Shift(t, e, j)) && Agrees(Shift(t, e, j), m) && Count(Shift(t, e, j)) == Count(t)
  {
    ShiftCount(t, e, j);
    ShiftUnique(t, e, j);
    ShiftAgrees(t, m, e, j);
  }

  lemma ShiftCount(t: Table, e: nat, j: nat)
    requires e < |t| && j < |t| && j != e && t[e].Empty() && !t[j].Empty()
    ensures Count(Shift(t, e, j)) == Count(t)
  {
    CountUpdate(t, e, t[j]);
    CountUpdate(t[e := t[j]], j, NO_NODE);
  }

  lemma ShiftUnique(t: Table, e: nat, j: nat)
    requires e < |t| && j < |t| && j != e && t[e].Empty() && !t[j].Empty() && Unique(t)
    ensures Unique(Shift(t, e, j))
  {
    var t' := Shift(t, e, j);
    forall p, q | 0 <= p < |t'| && 0 <= q < |t'| && !t'[p].Empty() && t'[p].key == t'[q].key ensures p == q {
      assert t'[p] == t[if p == e then j else p] && t'[q] == t[if q == e then j else q];
    }
  }

  lemma ShiftAgrees(t: Table, m: map<Key, Value>, e: nat, j: nat)
    requires e < |t| && j < |t| && j != e && t[e].Empty() && !t[j].Empty() && Agrees(t, m)
    ensures Agrees(Shift(t, e, j), m)
  {
    var t' := Shift(t, e, j);
    forall k | k in m ensures HasNode(t', k, m[k]) {
      var p :| 0 <= p < |t| && t[p] == Node(k, m[k]);
      assert t'[if p == j then e else p] == t[p];
    }
  }

  /**
   * The state of a shift that began by clearing e0 in t0: the hole is e, and the next bucket to
   * look at is d steps after e0.
   */
  ghost predicate Shifting(t0: Table, t: Table, hash: Key -> nat, m: map<Key, Value>, e0: nat, e: nat, d: nat) {
    var all :=
      && |t| == |t0| && e0 < |t| && e < |t| && Dist(e0, e, |t|) < d <= |t|
      && Hole(t, hash, e, d - Dist(e0, e, |t|)) && Unique(t) && Agrees(t, m) && Count(t) == Count(t0)
      && (forall q :: 0 <= q < |t| && Dist(e0, q, |t|) >= d ==> t[q] == t0[q])
      && (forall z :: 0 <= z < |t| && z != e0 && t0[z].Empty() ==> d <= Dist(e0, z, |t|));
    all
  }

  /** From an empty bucket on, the shift changed nothing. */
  ghost predicate ShiftedUpTo(t0: Table, t: Table, e0: nat) {
    && |t| == |t0| && e0 < |t|
    && forall z, q :: 0 <= z < |t| && 0 <= q < |t| && z != e0 && t0[z].Empty() && Dist(e0, q, |t|) >= Dist(e0, z, |t|) ==>
         t[q] == t0[q]
  }

  lemma ShiftStarts(t: Table, hash: Key -> nat, m: map<Key, Value>, e: nat)
    requires Holds(t, hash, m) && e < |t| && !t[e].Empty()
    ensures Shifting(t[e := NO_NODE], t[e := NO_NODE], hash, m - {t[e].key}, e, e, 1)
    ensures Count(t[e := NO_NODE]) == Count(t) - 1
  {
    ClearMakesHole(t, hash, m, e);
  }

  lemma ShiftEnds(t0: Table, t: Table, hash: Key -> nat, m: map<Key, Value>, e0: nat, e: nat, d: nat)
    requires Shifting(t0, t, hash, m, e0, e, d) && d < |t| && t[At(e0, d, |t|)].Empty()
    ensures Holds(t, hash, m) && ShiftedUpTo(t0, t, e0) && Count(t) == Count(t0)
  {
    var n := |t|;
    var j := At(e0, d, n);
    DistAt(e0, d, n);
    assert OnPath(e0, e, j, n);
    DistSplit(e0, e, j, n);
    assert j != e by { AtDist(e0, e, n); }
    HoleCloses(t, hash, e, j);
  }

  /** The next bucket is in range as long as some bucket other than the cleared one is empty. */
  lemma ShiftInRange(t0: Table, t: Table, hash: Key -> nat, m: map<Key, Value>, e0: nat, e: nat, d: nat, z: nat)
    requires Shifting(t0, t, hash, m, e0, e, d) && z < |t0| && z != e0 && t0[z].Empty()
    ensures d <= Dist(e0, z, |t0|) < |t|
  {
  }

  lemma ShiftPasses(t0: Table, t: Table, e0: nat, d: nat)
    requires |t| == |t0| && e0 < |t| && d < |t| && !t0[At(e0, d, |t|)].Empty()
    requires forall z :: 0 <= z < |t| && z != e0 && t0[z].Empty() ==> d <= Dist(e0, z, |t|)
    ensures forall z :: 0 <= z < |t| && z != e0 && t0[z].Empty() ==> d + 1 <= Dist(e0, z, |t|)
  {
    forall z | 0 <= z < |t| && z != e0 && t0[z].Empty() ensures d + 1 <= Dist(e0, z, |t|) {
      AtDist(e0, z, |t|);
    }
  }

  lemma ShiftKeeps(t0: Table, t: Table, hash: Key -> nat, m: map<Key, Value>, e0: nat, e: nat, d: nat)
    requires Shifting(t0, t, hash, m, e0, e, d) && d < |t|
    requires var j := At(e0, d, |t|); !t[j].Empty() && !OnPath(Home(hash, t[j].key, |t|), e, j, |t|)
    ensures Shifting(t0, t, hash, m, e0, e, d + 1)
  {
    var n := |t|;
    var j := At(e0, d, n);
    DistAt(e0, d, n);
    DistSplit(e0, e, j, n);
    HoleKeeps(t, hash, e, j);
    ShiftPasses(t0, t, e0, d);
  }

  lemma ShiftMoves(t0: Table, t: Table, hash: Key -> nat, m: map<Key, Value>, e0: nat, e: nat, d: nat)
    requires Shifting(t0, t, hash, m, e0, e, d) && d < |t|
    requires var j := At(e0, d, |t|); !t[j].Empty() && OnPath(Home(hash, t[j].key, |t|), e, j, |t|)
    ensures var j := At(e0, d, |t|); Shifting(t0, Shift(t, e, j), hash, m, e0, j, d + 1)
  {
    var j := At(e0, d, |t|);
    ShiftMovesHole(t0, t, hash, m, e0, e, d);
    ShiftSame(t, m, e, j);
    ShiftPasses(t0, t, e0, d);
    ShiftUntouched(t, e0, e, d);
  }

  /** The hole is now at the bucket just looked at. */
  lemma ShiftMovesHole(t0: Table, t: Table, hash: Key -> nat, m: map<Key, Value>, e0: nat, e: nat, d: nat)
    requires Shifting(t0, t, hash, m, e0, e, d) && d < |t|
    requires var j := At(e0, d, |t|); !t[j].Empty() && OnPath(Home(hash, t[j].key, |t|), e, j, |t|)
    ensures var j := At(e0, d, |t|); j != e && Dist(e0, j, |t|) == d && Hole(Shift(t, e, j), hash, j, 1)
  {
    var j := At(e0, d, |t|);
    DistAt(e0, d, |t|);
    DistSplit(e0, e, j, |t|);
    HoleMoves(t, hash, e, j);
  }

  lemma ShiftUntouched(t: Table, e0: nat, e: nat, d: nat)
    requires e0 < |t| && e < |t| && Dist(e0, e, |t|) < d < |t|
    ensures var j := At(e0, d, |t|);
      forall q :: 0 <= q < |t| && Dist(e0, q, |t|) >= d + 1 ==> Shift(t, e, j)[q] == t[q]
  {
    DistAt(e0, d, |t|);
  }
}
