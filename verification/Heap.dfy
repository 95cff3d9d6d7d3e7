/**
 * The 4-ary heap of pxcutils/pxc/utils/Heap.h: an array of keyed nodes, where each node
 * records its own position so that it can be found, moved and erased.
 */
module Heap {
  const K: nat := 4

  class HeapNode {
    const key: int      // the node's owner, as in MultiTimeout::Item; the heap does not look at it
    var pos: int

    constructor (key: int)
      ensures this.key == key && pos == -1
    {
      this.key := key;
      pos := -1;
    }

    predicate InHeap() reads this { pos != -1 }

    predicate IsTop() reads this { pos == 0 }
  }

  datatype Item = Item(key: real, node: HeapNode)

  // ----- order

  function Parent(i: nat): (p: nat)
    requires i > 0
    ensures p < i
  {
    (i - 1) / K
  }

  ghost predicate Link(c: seq<Item>, i: nat)
    requires 0 < i < |c|
  {
    c[Parent(i)].key <= c[i].key
  }

  ghost predicate Ordered(c: seq<Item>) {
    forall i :: 0 < i < |c| ==> Link(c, i)
  }

  /** The children of p are in order below the parent of p. */
  ghost predicate Bridged(c: seq<Item>, p: nat) {
    0 < p < |c| ==> forall i :: 0 < i < |c| && Parent(i) == p ==> c[Parent(p)].key <= c[i].key
  }

  /** In order but for the item at p, which may be too small for its place. */
  ghost predicate UpOK(c: seq<Item>, p: nat) {
    (forall i :: 0 < i < |c| && i != p ==> Link(c, i)) && Bridged(c, p)
  }

  /** In order but for the item at p, which may be too small or too large. */
  ghost predicate HoleOK(c: seq<Item>, p: nat) {
    (forall i :: 0 < i < |c| && i != p && Parent(i) != p ==> Link(c, i)) && Bridged(c, p)
  }

  ghost predicate Distinct(c: seq<Item>) {
    forall i, j :: 0 <= i < j < |c| ==> c[i].node != c[j].node
  }

  function Swap(c: seq<Item>, i: nat, j: nat): (d: seq<Item>)
    requires i < |c| && j < |c|
    ensures |d| == |c|
  {
    c[i := c[j]][j := c[i]]
  }

  lemma SwapSame(c: seq<Item>, i: nat, j: nat)
    requires i < |c| && j < |c| && i != j && Distinct(c)
    ensures multiset(Swap(c, i, j)) == multiset(c) && Distinct(Swap(c, i, j))
  {
    var d := Swap(c, i, j);
    forall a, b | 0 <= a < b < |d| ensures d[a].node != d[b].node {
      var a', b' := if a == i then j else if a == j then i else a, if b == i then j else if b == j then i else b;
      assert d[a] == c[a'] && d[b] == c[b'];
    }
  }

  /** An item that is not larger than its parent changes places with it. */
  lemma SwapUp(c: seq<Item>, p: nat)
    requires 0 < p < |c| && UpOK(c, p) && c[p].key <= c[Parent(p)].key
    ensures UpOK(Swap(c, p, Parent(p)), Parent(p))
  {
    var q := Parent(p);
    var d := Swap(c, p, q);
    forall i | 0 < i < |d| && i != q ensures Link(d, i) {
      if i != p { assert Link(c, i); }
    }
    if q > 0 {
      assert Link(c, q);
      forall i | 0 < i < |d| && Parent(i) == q ensures d[Parent(q)].key <= d[i].key {
        if i != p { assert Link(c, i); }
      }
    }
  }

  lemma UpDone(c: seq<Item>, p: nat)
    requires UpOK(c, p) && p < |c| && (p == 0 || c[Parent(p)].key <= c[p].key)
    ensures Ordered(c)
  {
  }

  /** An item that is larger than its least child changes places with it. */
  lemma SwapDown(c: seq<Item>, p: nat, n: nat)
    requires 0 < n < |c| && Parent(n) == p && HoleOK(c, p) && c[n].key < c[p].key
    requires forall i :: 0 < i < |c| && Parent(i) == p ==> c[n].key <= c[i].key
    ensures HoleOK(Swap(c, p, n), n) && Link(Swap(c, p, n), n) && (p > 0 ==> Link(Swap(c, p, n), p))
    ensures Bridged(Swap(c, p, n), p)
  {
    var d := Swap(c, p, n);
    forall i | 0 < i < |d| && i != n && Parent(i) != n ensures Link(d, i) {
      if i != p && Parent(i) != p { assert Link(c, i); }
    }
    forall i | 0 < i < |d| && Parent(i) == n ensures d[Parent(n)].key <= d[i].key {
      assert Link(c, i);
    }
  }

  lemma DownDone(c: seq<Item>, p: nat)
    requires HoleOK(c, p) && p < |c| && forall i :: 0 < i < |c| && Parent(i) == p ==> c[p].key <= c[i].key
    ensures UpOK(c, p)
  {
  }

  lemma OrderedUp(c: seq<Item>, p: nat)
    requires Ordered(c) && p < |c|
    ensures UpOK(c, p)
  {
    if p > 0 {
      assert Link(c, p);
      forall i | 0 < i < |c| && Parent(i) == p ensures c[Parent(p)].key <= c[i].key {
        assert Link(c, i);
      }
    }
  }

  /** Replacing one item of a heap. */
  lemma ReplaceHole(c: seq<Item>, p: nat, item: Item)
    requires Ordered(c) && p < |c|
    ensures HoleOK(c[p := item], p)
    ensures item.key <= c[p].key ==> UpOK(c[p := item], p)
  {
    var d := c[p := item];
    OrderedUp(c, p);
    forall i | 0 < i < |d| && i != p ensures Parent(i) != p ==> Link(d, i) {
      assert Link(c, i);
    }
    forall i | 0 < i < |d| && i != p && item.key <= c[p].key ensures Link(d, i) {
      assert Link(c, i);
    }
  }

  lemma {:induction false} TopIsLeast(c: seq<Item>, i: nat)
    requires Ordered(c) && i < |c|
    ensures c[0].key <= c[i].key
  {
    if i > 0 {
      assert Link(c, i);
      TopIsLeast(c, Parent(i));
    }
  }

  // ----- positions

  ghost function NodesOf(c: seq<Item>): set<HeapNode> {
    set i | 0 <= i < |c| :: c[i].node
  }

  /** Every node but the one at p knows its position. */
  ghost predicate PlacedBut(c: seq<Item>, p: nat)
    reads NodesOf(c)
  {
    forall i :: 0 <= i < |c| && i != p ==> c[i].node.pos == i
  }

  ghost predicate Placed(c: seq<Item>)
    reads NodesOf(c)
  {
    forall i :: 0 <= i < |c| ==> c[i].node.pos == i
  }

  lemma SwapNodes(c: seq<Item>, i: nat, j: nat)
    requires i < |c| && j < |c|
    ensures NodesOf(Swap(c, i, j)) == NodesOf(c)
  {
    var d := Swap(c, i, j);
    forall n | n in NodesOf(c) ensures n in NodesOf(d) {
      var k :| 0 <= k < |c| && c[k].node == n;
      assert d[if k == i then j else if k == j then i else k] == c[k];
    }
  }

  class KHeap {
    var items: seq<Item>

    ghost predicate Valid()
      reads this, NodesOf(items)
    {
      Ordered(items) && Distinct(items) && Placed(items)
    }

    constructor ()
      ensures Valid() && items == []
    {
      items := [];
    }

    predicate Empty() reads this { items == [] }

    /** The top holds the least key. */
    function TopKey(): (k: real)
      requires Valid() && !Empty()
      reads this, NodesOf(items)
      ensures forall i :: 0 <= i < |items| ==> k <= items[i].key
    {
      assert forall i :: 0 <= i < |items| ==> items[0].key <= items[i].key by {
        forall i | 0 <= i < |items| ensures items[0].key <= items[i].key {
          TopIsLeast(items, i);
        }
      }
      items[0].key
    }

    /** array_[pos] = from's item, which takes its new position; from is the hole now. */
    method Pull(pos: nat, from: nat, ghost c: seq<Item>) returns (ghost d: seq<Item>)
      requires pos < |items| && from < |items| && pos != from
      requires |c| == |items| && c == items[pos := c[pos]] && Distinct(c) && PlacedBut(c, pos)
      modifies this, NodesOf(c)
      ensures d == Swap(c, pos, from) && |items| == |d| && d == items[from := d[from]]
      ensures d[from] == c[pos] && multiset(d) == multiset(c) && Distinct(d) && PlacedBut(d, from)
      ensures NodesOf(d) == NodesOf(c)
    {
      SwapSame(c, pos, from);
      SwapNodes(c, pos, from);
      var item := items[from];
      assert item == c[from];
      item.node.pos := pos;
      items := items[pos := item];
      d := Swap(c, pos, from);
    }

    /** item.node_->pos_ = pos; array_[pos] = item */
    method Settle(pos: nat, item: Item, ghost c: seq<Item>)
      requires |c| == |items| && pos < |c| && c == items[pos := item] && Distinct(c) && PlacedBut(c, pos)
      modifies this, item.node
      ensures items == c && Placed(items)
    {
      assert c[pos] == item && forall i :: 0 <= i < |c| && i != pos ==> c[i].node != item.node;
      item.node.pos := pos;
      items := items[pos := item];
    }

    method FixUp(start: nat)
      requires start < |items| && UpOK(items, start) && Distinct(items) && PlacedBut(items, start)
      modifies this, NodesOf(items)
      ensures Valid() && multiset(items) == old(multiset(items)) && NodesOf(items) == old(NodesOf(items))
    {
      var pos: nat, item := start, items[start];
      ghost var c := items;
      while pos > 0
        invariant pos < |items| == |c| && c == items[pos := item] && c[pos] == item
        invariant UpOK(c, pos) && Distinct(c) && PlacedBut(c, pos)
        invariant multiset(c) == old(multiset(items)) && NodesOf(c) == old(NodesOf(items))
      {
        var parentPos := (pos - 1) / K;
        if items[parentPos].key < item.key {
          break;
        }
        SwapUp(c, pos);
        c := Pull(pos, parentPos, c);
        pos := parentPos;
      }
      UpDone(c, pos);
      Settle(pos, item, c);
    }

    /** The least child that is smaller than the item, or the position itself. */
    method LeastChild(pos: nat, key: real) returns (nextPos: nat)
      requires pos < |items|
      ensures nextPos == pos || (pos < nextPos < |items| && Parent(nextPos) == pos && items[nextPos].key < key)
      ensures nextPos == pos ==> forall i :: 0 < i < |items| && Parent(i) == pos ==> key <= items[i].key
      ensures nextPos != pos ==> forall i :: 0 < i < |items| && Parent(i) == pos ==> items[nextPos].key <= items[i].key
    {
      var leftPos := pos * K + 1;
      var rightPos := if leftPos + K < |items| then leftPos + K else |items|;
      nextPos := pos;
      var nextKey := key;
      var i := leftPos;
      while i < rightPos
        invariant leftPos <= i && (leftPos <= rightPos ==> i <= rightPos)
        invariant nextPos == pos ==> nextKey == key
        invariant nextPos != pos ==> leftPos <= nextPos < i && nextPos < |items| && nextKey == items[nextPos].key < key
        invariant forall j :: leftPos <= j < i && j < rightPos ==> nextKey <= items[j].key
      {
        if items[i].key < nextKey {
          nextKey, nextPos := items[i].key, i;
        }
        i := i + 1;
      }
      forall j | 0 < j < |items| && Parent(j) == pos ensures leftPos <= j < rightPos {
      }
    }

    /** Afterwards only the link above start may be broken, and it is not if it was not before. */
    method FixDown(start: nat)
      requires start < |items| && HoleOK(items, start) && Distinct(items) && PlacedBut(items, start)
      modifies this, NodesOf(items)
      ensures UpOK(items, start) && Distinct(items) && Placed(items)
      ensures old(start == 0 || items[Parent(start)].key <= items[start].key) ==> Ordered(items)
      ensures multiset(items) == old(multiset(items)) && NodesOf(items) == old(NodesOf(items))
    {
      var pos, item := start, items[start];
      ghost var c, was := items, items;
      var nextPos := LeastChild(pos, item.key);
      while nextPos != pos
        invariant start <= pos < |items| == |c| && c == items[pos := item] && c[pos] == item
        invariant HoleOK(c, pos) && Distinct(c) && PlacedBut(c, pos)
        invariant if pos == start then c == was else pos > 0 && Link(c, pos)
        invariant multiset(c) == old(multiset(items)) && NodesOf(c) == old(NodesOf(items))
        invariant nextPos == pos || (pos < nextPos < |c| && Parent(nextPos) == pos && c[nextPos].key < item.key)
        invariant nextPos == pos ==> forall i :: 0 < i < |c| && Parent(i) == pos ==> item.key <= c[i].key
        invariant nextPos != pos ==> forall i :: 0 < i < |c| && Parent(i) == pos ==> c[nextPos].key <= c[i].key
        decreases |items| - pos, nextPos != pos
      {
        SwapDown(c, pos, nextPos);
        c := Pull(pos, nextPos, c);
        pos := nextPos;
        nextPos := LeastChild(pos, item.key);
      }
      DownDone(c, pos);
      if pos != start {
        UpDone(c, pos);
        OrderedUp(c, start);
      } else if start == 0 || was[Parent(start)].key <= was[start].key {
        UpDone(c, pos);
      }
      Settle(pos, item, c);
    }

    /** The node is in this heap. */
    ghost predicate Has(node: HeapNode)
      reads this, node
    {
      0 <= node.pos < |items| && items[node.pos].node == node
    }

    method Insert(key: real, node: HeapNode)
      requires Valid() && !node.InHeap()
      modifies this, NodesOf(items), node
      ensures Valid() && multiset(items) == old(multiset(items)) + multiset{Item(key, node)}
      ensures NodesOf(items) == old(NodesOf(items)) + {node} && Has(node)
    {
      Append(items, Item(key, node));
      items := items + [Item(key, node)];
      assert items[|items| - 1].node == node;
      FixUp(|items| - 1);
      assert node in NodesOf(items);
    }

    /** Changes the key of a node. */
    method Fix(key: real, node: HeapNode)
      requires Valid() && Has(node)
      modifies this, NodesOf(items)
      ensures Valid() && Has(node) && NodesOf(items) == old(NodesOf(items))
      ensures multiset(items) == old(multiset(items) - multiset{items[node.pos]}) + multiset{Item(key, node)}
    {
      var pos: nat := node.pos;
      var oldKey := items[pos].key;
      ReplaceHole(items, pos, Item(key, node));
      ReplaceSame(items, pos, Item(key, node));
      if pos > 0 { assert Link(items, pos); }
      items := items[pos := items[pos].(key := key)];
      if key < oldKey {
        FixUp(pos);
      } else {
        FixDown(pos);
      }
      assert node in NodesOf(items);
    }

    /** erase(pos), for a node that no longer knows its position. */
    method EraseAt(pos: nat)
      requires pos < |items| && Ordered(items) && Distinct(items) && PlacedBut(items, pos)
      modifies this, NodesOf(items)
      ensures Valid() && multiset(items) == old(multiset(items) - multiset{items[pos]})
      ensures NodesOf(items) == old(NodesOf(items) - {items[pos].node})
      ensures old(items[pos].node).pos == old(items[pos].node.pos)
    {
      var last := |items| - 1;
      RemoveSame(items, pos);
      items := items[pos := items[last]][..last];
      if pos < |items| {
        FixDown(pos);
        FixUp(pos);
      }
    }

    method Erase(node: HeapNode)
      requires Valid() && Has(node)
      modifies this, NodesOf(items), node
      ensures Valid() && !node.InHeap() && NodesOf(items) == old(NodesOf(items)) - {node}
      ensures multiset(items) == old(multiset(items) - multiset{items[node.pos]})
    {
      var pos: nat := node.pos;
      node.pos := -1;
      EraseAt(pos);
    }

    method Pop() returns (node: HeapNode)
      requires Valid() && !Empty()
      modifies this, NodesOf(items)
      ensures Valid() && node == old(items[0].node) && !node.InHeap() && NodesOf(items) == old(NodesOf(items)) - {node}
      ensures multiset(items) == old(multiset(items) - multiset{items[0]})
    {
      node := items[0].node;
      node.pos := -1;
      EraseAt(0);
    }
  }

  lemma Append(c: seq<Item>, item: Item)
    requires Ordered(c) && Distinct(c) && item.node !in NodesOf(c)
    ensures UpOK(c + [item], |c|) && Distinct(c + [item]) && NodesOf(c + [item]) == NodesOf(c) + {item.node}
  {
    var d := c + [item];
    forall i | 0 < i < |d| && i != |c| ensures Link(d, i) {
      assert Link(c, i);
    }
    forall i | 0 <= i < |c| ensures d[i].node != item.node {
      assert c[i].node in NodesOf(c);
    }
    assert d[|c|].node == item.node;
    forall n | n in NodesOf(c) ensures n in NodesOf(d) {
      var i :| 0 <= i < |c| && c[i].node == n;
      assert d[i].node == n;
    }
  }

  lemma ReplaceSame(c: seq<Item>, p: nat, item: Item)
    requires p < |c| && Distinct(c) && item.node == c[p].node
    ensures multiset(c[p := item]) == multiset(c) - multiset{c[p]} + multiset{item}
    ensures Distinct(c[p := item]) && NodesOf(c[p := item]) == NodesOf(c)
  {
    var d := c[p := item];
    forall n | n in NodesOf(c) ensures n in NodesOf(d) {
      var i :| 0 <= i < |c| && c[i].node == n;
      assert d[i].node == n;
    }
  }

  /** The last item takes the place of the erased one. */
  lemma RemoveSame(c: seq<Item>, p: nat)
    requires p < |c| && Distinct(c) && Ordered(c)
    ensures var d := c[p := c[|c| - 1]][..|c| - 1];
      && multiset(d) == multiset(c) - multiset{c[p]}
      && Distinct(d) && NodesOf(d) == NodesOf(c) - {c[p].node}
      && (if p < |d| then HoleOK(d, p) else Ordered(d))
  {
    RemovedItems(c, p);
    RemovedNodes(c, p);
    RemovedOrder(c, p);
  }

  lemma RemovedItems(c: seq<Item>, p: nat)
    requires p < |c|
    ensures multiset(c[p := c[|c| - 1]][..|c| - 1]) == multiset(c) - multiset{c[p]}
  {
    var l := |c| - 1;
    var e := c[p := c[l]];
    assert e == e[..l] + [c[l]];
    var m, rest := multiset(c) - multiset{c[p]}, multiset(e[..l]);
    assert multiset(e) == m + multiset{c[l]};
    assert multiset(e) == rest + multiset{c[l]};
    forall x ensures m[x] == rest[x] {
      assert multiset(e)[x] == m[x] + multiset{c[l]}[x];
      assert multiset(e)[x] == rest[x] + multiset{c[l]}[x];
    }
    assert m == rest;
  }

  lemma RemovedOrder(c: seq<Item>, p: nat)
    requires p < |c| && Ordered(c)
    ensures var d := c[p := c[|c| - 1]][..|c| - 1];
      if p < |d| then HoleOK(d, p) else Ordered(d)
  {
    var l := |c| - 1;
    var d := c[p := c[l]][..l];
    var prefix := c[..l];
    forall i | 0 < i < l ensures Link(prefix, i) {
      assert Link(c, i);
    }
    if p < l {
      ReplaceHole(prefix, p, c[l]);
      assert d == prefix[p := c[l]];
    } else {
      forall i | 0 < i < |d| ensures Link(d, i) {
        assert Link(prefix, i);
      }
    }
  }

  lemma RemovedNodes(c: seq<Item>, p: nat)
    requires p < |c| && Distinct(c)
    ensures var d := c[p := c[|c| - 1]][..|c| - 1];
      Distinct(d) && NodesOf(d) == NodesOf(c) - {c[p].node}
  {
    var l := |c| - 1;
    var d := c[p := c[l]][..l];
    assert forall i :: 0 <= i < l ==> d[i] == if i == p then c[l] else c[i];
    forall n | n in NodesOf(c) && n != c[p].node ensures n in NodesOf(d) {
      var i :| 0 <= i < |c| && c[i].node == n;
      assert d[if i == l then p else i].node == n;
    }
  }
}
