/**
 * The per-key timeouts of pxcactor/pxc/actor/MultiTimeout.cpp: a set of keys whose elements
 * are the nodes of a 4-ary heap, and one timeout of the actor that follows the top of the
 * heap.  Times are reals, and the current time is a parameter.
 */
module MultiTimeout {
  import opened Heap

  datatype Option<T> = None | Some(value: T)

  /** With the item of one node apart, two heaps of the same items have the same top key. */
  lemma SameTop(c: seq<Item>, d: seq<Item>, node: HeapNode)
    requires c != [] && d != [] && Ordered(c) && Ordered(d) && c[0].node != node && d[0].node != node
    requires forall x: Item :: x.node != node ==> (x in c <==> x in d)
    ensures c[0].key == d[0].key
  {
    assert c[0] in d && d[0] in c;
    var i :| 0 <= i < |d| && d[i] == c[0];
    var j :| 0 <= j < |c| && c[j] == d[0];
    TopIsLeast(d, i);
    TopIsLeast(c, j);
  }

  lemma NewIsNotTop(c: seq<Item>, d: seq<Item>, item: Item)
    requires d != [] && Ordered(c) && Ordered(d) && d[0].node != item.node && item.node !in NodesOf(c)
    requires forall x :: x in d <==> x in c || x == item
    ensures c != [] && c[0].key == d[0].key
  {
    assert d[0] in d;
    assert c[0].node in NodesOf(c);
    SameTop(c, d, item.node);
  }

  ghost predicate NoDuplicates(keys: seq<int>) {
    forall i, j :: 0 <= i < j < |keys| ==> keys[i] != keys[j]
  }

  /** Keys, nodes and the heap's items are in bijection. */
  ghost predicate Tied(items: seq<Item>, nodes: map<int, HeapNode>, timeouts: map<int, real>) {
    var all :=
      && nodes.Keys == timeouts.Keys
      && (forall k :: k in nodes ==> nodes[k].key == k && Item(timeouts[k], nodes[k]) in items)
      && (forall x :: x in items ==> x.node.key in nodes && nodes[x.node.key] == x.node);
    all
  }

  lemma TiedAdded(c: seq<Item>, d: seq<Item>, nodes: map<int, HeapNode>, timeouts: map<int, real>, item: Item)
    requires Tied(c, nodes, timeouts) && item.node.key !in nodes
    requires forall x :: x in d <==> x in c || x == item
    ensures Tied(d, nodes[item.node.key := item.node], timeouts[item.node.key := item.key])
  {
  }

  lemma TiedRemoved(c: seq<Item>, d: seq<Item>, nodes: map<int, HeapNode>, timeouts: map<int, real>, item: Item)
    requires Tied(c, nodes, timeouts) && Distinct(c) && item in c
    requires forall x :: x in d <==> x in c && x != item
    ensures Tied(d, nodes - {item.node.key}, timeouts - {item.node.key})
  {
    forall x | x in c && x != item ensures x.node != item.node {
      OneItem(c, x, item);
    }
  }

  lemma TiedChanged(c: seq<Item>, d: seq<Item>, nodes: map<int, HeapNode>, timeouts: map<int, real>, item: Item, item': Item)
    requires Tied(c, nodes, timeouts) && Distinct(c) && item in c && item'.node == item.node
    requires forall x :: x in d <==> (x in c && x != item) || x == item'
    ensures Tied(d, nodes, timeouts[item.node.key := item'.key])
  {
    forall x | x in c && x != item ensures x.node != item.node {
      OneItem(c, x, item);
    }
  }

  lemma OneItem(c: seq<Item>, x: Item, y: Item)
    requires Distinct(c) && x in c && y in c && x != y
    ensures x.node != y.node
  {
    var i :| 0 <= i < |c| && c[i] == x;
    var j :| 0 <= j < |c| && c[j] == y;
  }

  class MultiTimeout {
    const queue: KHeap
    var nodes: map<int, HeapNode>       // items_
    var alarm: Option<real>             // the timeout of the actor
    var mailbox: nat                    // timeout events on their way to the actor
    ghost var timeouts: map<int, real>  // what the object means

    /** The keys are in bijection with the heap's nodes, which are keyed by their timeouts. */
    ghost predicate Valid()
      reads this, queue, NodesOf(queue.items)
    {
      queue.Valid() && Tied(queue.items, nodes, timeouts)
    }

    /** The actor's timeout is the earliest of all, unless an event that will set it is on its way. */
    ghost predicate Armed()
      reads this, queue
    {
      queue.items != [] ==> alarm == Some(queue.items[0].key) || (alarm == None && mailbox > 0)
    }

    constructor ()
      ensures Valid() && Armed() && timeouts == map[] && alarm == None && mailbox == 0
    {
      queue := new KHeap();
      nodes, timeouts, alarm, mailbox := map[], map[], None, 0;
    }

    predicate HasTimeout(key: int)
      requires Valid()
      reads this, queue, NodesOf(queue.items)
      ensures HasTimeout(key) <==> key in timeouts
    {
      key in nodes
    }

    lemma NodeIsThere(key: int)
      requires Valid() && key in nodes
      ensures queue.Has(nodes[key]) && queue.items[nodes[key].pos] == Item(timeouts[key], nodes[key])
      ensures nodes[key] in NodesOf(queue.items) && queue.items != []
    {
      var i :| 0 <= i < |queue.items| && queue.items[i] == Item(timeouts[key], nodes[key]);
    }

    lemma EmptyTogether()
      requires Valid()
      ensures nodes == map[] <==> queue.items == []
    {
      if queue.items != [] {
        assert queue.items[0] in queue.items;
      }
      forall k | k in nodes ensures queue.items != [] {
        NodeIsThere(k);
      }
      assert (forall k :: k !in nodes) ==> nodes == map[];
    }

    /** update_timeout: its checks hold whenever it is called. */
    method UpdateTimeout()
      requires Valid() && (nodes == map[] && alarm == None ==> mailbox > 0)
      modifies this`alarm
      ensures Valid() && Armed() && (nodes == map[] ==> alarm == None)
    {
      EmptyTogether();
      if nodes == map[] {
        assert queue.Empty();
        if alarm == None {
          assert mailbox > 0;
        } else {
          alarm := None;
        }
      } else {
        alarm := Some(queue.TopKey());
      }
    }

    method InsertNew(key: int, timeout: real) returns (node: HeapNode)
      requires Valid() && Armed() && key !in timeouts
      modifies this, queue, NodesOf(queue.items)
      ensures Valid() && timeouts == old(timeouts)[key := timeout] && fresh(NodesOf(queue.items) - old(NodesOf(queue.items)))
      ensures mailbox == old(mailbox) && alarm == old(alarm) && queue.Has(node) && node !in old(NodesOf(queue.items))
      ensures forall x :: x in queue.items <==> x in old(queue.items) || x == Item(timeout, node)
    {
      ghost var was := queue.items;
      node := new HeapNode(key);
      queue.Insert(timeout, node);
      nodes := nodes[key := node];
      timeouts := timeouts[key := timeout];
      Added(was, queue.items, Item(timeout, node));
      TiedAdded(was, queue.items, old(nodes), old(timeouts), Item(timeout, node));
    }

    /** Gives a node its new timeout; the top key is the same if the node is not the top before or after. */
    method ChangeKey(key: int, timeout: real) returns (top: bool)
      requires Valid() && key in nodes
      modifies this`timeouts, queue, NodesOf(queue.items)
      ensures Valid() && timeouts == old(timeouts)[key := timeout] && NodesOf(queue.items) == old(NodesOf(queue.items))
      ensures !old(nodes[key].IsTop()) && !top ==> old(queue.items) != [] && queue.items != [] && queue.items[0].key == old(queue.items[0].key)
    {
      ghost var was := queue.items;
      NodeIsThere(key);
      var node := nodes[key];
      ghost var wasTop := node.IsTop();
      queue.Fix(timeout, node);
      Changed(was, queue.items, Item(timeouts[key], node), Item(timeout, node));
      TiedChanged(was, queue.items, nodes, timeouts, Item(timeouts[key], node), Item(timeout, node));
      timeouts := timeouts[key := timeout];
      top := node.IsTop();
      if !wasTop && !top {
        SameTop(was, queue.items, node);
      }
    }

    /** Sets the timeout of the key, whether it had one or not. */
    method SetTimeoutAt(key: int, timeout: real)
      requires Valid() && Armed()
      modifies this, queue, NodesOf(queue.items)
      ensures Valid() && Armed() && timeouts == old(timeouts)[key := timeout] && mailbox == old(mailbox)
      ensures fresh(NodesOf(queue.items) - old(NodesOf(queue.items)))
    {
      if key in nodes {
        var needUpdateTimeout := nodes[key].IsTop();
        var top := ChangeKey(key, timeout);
        if needUpdateTimeout || top {
          UpdateTimeout();
        }
      } else {
        ghost var was := queue.items;
        var node := InsertNew(key, timeout);
        if node.IsTop() {
          UpdateTimeout();
        } else {
          NewIsNotTop(was, queue.items, Item(timeout, node));
        }
      }
    }

    /** Sets the timeout of the key only if it has none. */
    method AddTimeoutAt(key: int, timeout: real)
      requires Valid() && Armed()
      modifies this, queue, NodesOf(queue.items)
      ensures Valid() && Armed() && mailbox == old(mailbox)
      ensures timeouts == if key in old(timeouts) then old(timeouts) else old(timeouts)[key := timeout]
      ensures fresh(NodesOf(queue.items) - old(NodesOf(queue.items)))
    {
      if key !in nodes {
        ghost var was := queue.items;
        var node := InsertNew(key, timeout);
        if node.IsTop() {
          UpdateTimeout();
        } else {
          NewIsNotTop(was, queue.items, Item(timeout, node));
        }
      }
    }

    method CancelTimeout(key: int)
      requires Valid() && Armed()
      modifies this, queue, NodesOf(queue.items)
      ensures Valid() && Armed() && timeouts == old(timeouts) - {key} && mailbox == old(mailbox)
      ensures NodesOf(queue.items) <= old(NodesOf(queue.items))
    {
      if key in nodes {
        NodeIsThere(key);
        var needUpdateTimeout := nodes[key].IsTop();
        RemoveKey(key);
        if needUpdateTimeout {
          UpdateTimeout();
        }
      } else {
        assert timeouts == timeouts - {key};
      }
    }

    /** Takes a node out; the top key is the same if the node was not the top. */
    method RemoveKey(key: int)
      requires Valid() && key in nodes
      modifies this`nodes, this`timeouts, queue, NodesOf(queue.items)
      ensures Valid() && timeouts == old(timeouts) - {key} && NodesOf(queue.items) <= old(NodesOf(queue.items))
      ensures !old(nodes[key].IsTop()) && queue.items != [] ==> old(queue.items) != [] && queue.items[0].key == old(queue.items[0].key)
    {
      ghost var was := queue.items;
      NodeIsThere(key);
      var node := nodes[key];
      ghost var wasTop := node.IsTop();
      queue.Erase(node);
      Removed(was, queue.items, Item(timeouts[key], node));
      TiedRemoved(was, queue.items, nodes, timeouts, Item(timeouts[key], node));
      nodes := nodes - {key};
      timeouts := timeouts - {key};
      if !wasTop && queue.items != [] {
        assert queue.items[0] in queue.items;
        SameTop(was, queue.items, node);
      }
    }

    // ----- expiry

    /** Takes the earliest key out. */
    method PopKey() returns (key: int)
      requires Valid() && queue.items != []
      modifies this`nodes, this`timeouts, queue, NodesOf(queue.items)
      ensures Valid() && NodesOf(queue.items) <= old(NodesOf(queue.items))
      ensures key in old(timeouts) && timeouts == old(timeouts) - {key} && old(timeouts)[key] == old(queue.items[0].key)
      ensures forall k :: k in timeouts ==> old(timeouts)[key] <= timeouts[k]
    {
      ghost var was := queue.items;
      assert was[0] in was;
      key := queue.items[0].node.key;
      NodeIsThere(key);
      forall k | k in timeouts ensures was[0].key <= timeouts[k] {
        NodeIsThere(k);
        TopIsLeast(was, nodes[k].pos);
      }
      var node := queue.Pop();
      Removed(was, queue.items, was[0]);
      TiedRemoved(was, queue.items, nodes, timeouts, was[0]);
      nodes := nodes - {key};
      timeouts := timeouts - {key};
    }

    /** Removes exactly the keys whose timeouts are below now, and returns them in timeout order. */
    method GetExpiredKeys(now: real) returns (keys: seq<int>)
      requires Valid()
      modifies this`nodes, this`timeouts, queue, NodesOf(queue.items)
      ensures Valid() && NodesOf(queue.items) <= old(NodesOf(queue.items))
      ensures timeouts == NotBefore(old(timeouts), now)
      ensures Expired(old(timeouts), keys, now)
      ensures keys == [] ==> queue.items == old(queue.items)
    {
      keys := [];
      while !queue.Empty() && queue.TopKey() < now
        invariant Valid() && NodesOf(queue.items) <= old(NodesOf(queue.items))
        invariant Expiring(old(timeouts), timeouts, keys, now)
        invariant keys == [] ==> queue.items == old(queue.items)
        decreases |timeouts|
      {
        ghost var before := timeouts;
        var key := PopKey();
        Smaller(before, key);
        ExpireOne(old(timeouts), before, keys, now, key);
        keys := keys + [key];
      }
      NoneBefore(now);
      ExpireDone(old(timeouts), timeouts, keys, now);
    }

    lemma NoneBefore(now: real)
      requires Valid() && (queue.items == [] || queue.items[0].key >= now)
      ensures forall k :: k in timeouts ==> timeouts[k] >= now
    {
      forall k | k in timeouts ensures timeouts[k] >= now {
        NodeIsThere(k);
        TopIsLeast(queue.items, nodes[k].pos);
      }
    }

    /** The actor's timeout passes: the scheduler clears it and sends the event. */
    method TimerFires()
      requires Valid() && Armed() && alarm.Some?
      modifies this`alarm, this`mailbox
      ensures Valid() && Armed() && alarm == None && mailbox == old(mailbox) + 1
    {
      alarm := None;
      mailbox := mailbox + 1;
    }

    /** timeout_expired, for an event taken from the mailbox; returns the keys whose callback is run. */
    method TimeoutExpired(now: real) returns (keys: seq<int>)
      requires Valid() && Armed() && mailbox > 0
      modifies this, queue, NodesOf(queue.items)
      ensures Valid() && Armed() && Expired(old(timeouts), keys, now) && mailbox == old(mailbox) - 1
      ensures timeouts == NotBefore(old(timeouts), now)
    {
      mailbox := mailbox - 1;
      keys := GetExpiredKeys(now);
      EmptyTogether();
      if nodes != map[] {
        UpdateTimeout();
      }
    }

    method RunAll(now: real) returns (keys: seq<int>)
      requires Valid() && Armed()
      modifies this, queue, NodesOf(queue.items)
      ensures Valid() && Armed() && Expired(old(timeouts), keys, now + 1e10) && mailbox == old(mailbox)
      ensures timeouts == NotBefore(old(timeouts), now + 1e10)
    {
      ghost var was := timeouts;
      EmptyTogether();
      keys := GetExpiredKeys(now + 1e10);
      if keys != [] {
        SomeExpired(was, keys, now + 1e10);
        UpdateTimeout();
      }
    }
  }

  ghost function NotBefore(m: map<int, real>, now: real): map<int, real> {
    map k | k in m && m[k] >= now :: m[k]
  }

  /** The keys with timeouts below now, each once, in timeout order. */
  ghost predicate Expired(was: map<int, real>, keys: seq<int>, now: real) {
    && NoDuplicates(keys)
    && (forall k :: k in keys <==> k in was && was[k] < now)
    && (forall i, j :: 0 <= i < j < |keys| ==> was[keys[i]] <= was[keys[j]])
  }

  /** Some of the keys have been taken out: earlier ones than those that remain. */
  ghost predicate Expiring(was: map<int, real>, left: map<int, real>, keys: seq<int>, now: real) {
    && NoDuplicates(keys)
    && (forall k :: k in left ==> k in was && left[k] == was[k])
    && (forall k :: k in keys <==> k in was && k !in left)
    && (forall i :: 0 <= i < |keys| ==> was[keys[i]] < now && forall k :: k in left ==> was[keys[i]] <= left[k])
    && (forall i, j :: 0 <= i < j < |keys| ==> was[keys[i]] <= was[keys[j]])
  }

  lemma ExpireOne(was: map<int, real>, left: map<int, real>, keys: seq<int>, now: real, key: int)
    requires Expiring(was, left, keys, now) && key in left && left[key] < now
    requires forall k :: k in left - {key} ==> left[key] <= left[k]
    ensures Expiring(was, left - {key}, keys + [key], now)
  {
    assert key !in keys;
  }

  lemma ExpireDone(was: map<int, real>, left: map<int, real>, keys: seq<int>, now: real)
    requires Expiring(was, left, keys, now) && forall k :: k in left ==> left[k] >= now
    ensures Expired(was, keys, now) && left == NotBefore(was, now)
  {
    forall k | k in was ensures k in keys <==> was[k] < now {
      assert k in keys <==> k !in left;
      if k in keys {
        var i :| 0 <= i < |keys| && keys[i] == k;
      }
    }
    var later := NotBefore(was, now);
    assert forall k :: k in later <==> k in left;
    assert forall k :: k in later ==> later[k] == left[k];
    assert later.Keys == left.Keys;
    assert later == left;
  }

  lemma SomeExpired(was: map<int, real>, keys: seq<int>, now: real)
    requires Expired(was, keys, now) && keys != []
    ensures was != map[]
  {
    assert keys[0] in keys;
    assert keys[0] in was;
  }

  lemma Smaller(m: map<int, real>, key: int)
    requires key in m
    ensures |m - {key}| < |m|
  {
    assert m == (m - {key})[key := m[key]];
  }

  lemma Added(c: seq<Item>, d: seq<Item>, item: Item)
    requires multiset(d) == multiset(c) + multiset{item}
    ensures forall x :: x in d <==> x in c || x == item
  {
    forall x ensures x in d <==> x in c || x == item {
      assert x in d <==> x in multiset(d);
      assert x in c <==> x in multiset(c);
    }
  }

  lemma Removed(c: seq<Item>, d: seq<Item>, item: Item)
    requires multiset(d) == multiset(c) - multiset{item} && item in c && Distinct(c)
    ensures forall x :: x in d <==> x in c && x != item
  {
    OnlyOnce(c, item);
    forall x ensures x in d <==> x in c && x != item {
      assert x in d <==> x in multiset(d);
      assert x in c <==> x in multiset(c);
    }
  }

  lemma OnlyOnce(c: seq<Item>, item: Item)
    requires item in c && Distinct(c)
    ensures multiset(c)[item] == 1
  {
    var i :| 0 <= i < |c| && c[i] == item;
    assert c == c[..i] + [item] + c[i + 1..];
    assert item !in c[..i] && item !in c[i + 1..];
    assert multiset(c)[item] == multiset(c[..i])[item] + 1 + multiset(c[i + 1..])[item];
  }

  lemma Changed(c: seq<Item>, d: seq<Item>, item: Item, item': Item)
    requires multiset(d) == multiset(c) - multiset{item} + multiset{item'} && item in c && Distinct(c)
    ensures forall x :: x in d <==> (x in c && x != item) || x == item'
  {
    var i :| 0 <= i < |c| && c[i] == item;
    var e := c[..i] + c[i + 1..];
    assert c == c[..i] + [item] + c[i + 1..];
    assert multiset(e) == multiset(c) - multiset{item};
    Removed(c, e, item);
    Added(e, d, item');
  }
}
