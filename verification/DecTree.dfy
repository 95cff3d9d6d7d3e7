/**
 * The treap of pxcutils/pxc/utils/DecTree.h.  Its functions consume and return whole trees, so
 * trees are values here; keys are integers, and the random priorities are parameters.
 *
 * A tree stands for its entries in order.  Insertion of an absent key adds exactly that entry,
 * removal takes exactly one away, and both keep the order of keys, the order of priorities and
 * the sizes.  Insertion of a present key is refused only if its node's priority is not below
 * the new one; otherwise the key is there twice.
 */
module DecTree {
  datatype Entry<V> = Entry(key: int, value: V)

  datatype Tree<V> = Leaf | Node(left: Tree<V>, right: Tree<V>, size: nat, key: int, value: V, y: nat)

  datatype Option<V> = None | Some(value: V)

  // ----- the functions

  function SizeOf<V>(t: Tree<V>): nat { if t.Leaf? then 0 else t.size }

  function Relax<V>(t: Tree<V>): Tree<V>
    requires t.Node?
  {
    t.(size := 1 + SizeOf(t.left) + SizeOf(t.right))
  }

  function Split<V>(t: Tree<V>, key: int): (Tree<V>, Tree<V>) {
    if t.Leaf? then (Leaf, Leaf)
    else if key < t.key then
      var p := Split(t.left, key);
      (p.0, Relax(t.(left := p.1)))
    else
      var p := Split(t.right, key);
      (Relax(t.(right := p.0)), p.1)
  }

  function Merge<V>(l: Tree<V>, r: Tree<V>): Tree<V> {
    if l.Leaf? then r
    else if r.Leaf? then l
    else if l.y < r.y then Relax(r.(left := Merge(l, r.left)))
    else Relax(l.(right := Merge(l.right, r)))
  }

  function Insert<V>(t: Tree<V>, key: int, value: V, y: nat): Tree<V> {
    if t.Leaf? then Node(Leaf, Leaf, 1, key, value, y)
    else if t.y < y then
      var p := Split(t, key);
      Relax(Node(p.0, p.1, 1, key, value, y))
    else if key < t.key then Relax(t.(left := Insert(t.left, key, value, y)))
    else if t.key < key then Relax(t.(right := Insert(t.right, key, value, y)))
    else Relax(t)
  }

  function Remove<V>(t: Tree<V>, key: int): Tree<V> {
    if t.Leaf? then Leaf
    else if key < t.key then Relax(t.(left := Remove(t.left, key)))
    else if t.key < key then Relax(t.(right := Remove(t.right, key)))
    else
      var m := Merge(t.left, t.right);
      if m.Leaf? then m else Relax(m)
  }

  function Get<V>(t: Tree<V>, key: int): Option<V> {
    if t.Leaf? then None
    else if key < t.key then Get(t.left, key)
    else if t.key < key then Get(t.right, key)
    else Some(t.value)
  }

  // ----- what a tree stands for

  function Entries<V>(t: Tree<V>): seq<Entry<V>> {
    if t.Leaf? then [] else Entries(t.left) + [Entry(t.key, t.value)] + Entries(t.right)
  }

  ghost predicate Ascending<V>(es: seq<Entry<V>>) { forall i, j :: 0 <= i < j < |es| ==> es[i].key < es[j].key }

  predicate Below<V>(t: Tree<V>, y: nat) { t.Node? ==> t.y <= y }

  /** No node's priority is above its parent's. */
  predicate Heaped<V>(t: Tree<V>) {
    t.Node? ==> Below(t.left, t.y) && Below(t.right, t.y) && Heaped(t.left) && Heaped(t.right)
  }

  predicate Sized<V>(t: Tree<V>) {
    t.Node? ==> t.size == |Entries(t)| && Sized(t.left) && Sized(t.right)
  }

  predicate Shaped<V>(t: Tree<V>) { Heaped(t) && Sized(t) }

  ghost predicate Valid<V>(t: Tree<V>) { Shaped(t) && Ascending(Entries(t)) }

  lemma SizeIs<V>(t: Tree<V>)
    requires Sized(t)
    ensures SizeOf(t) == |Entries(t)|
  {
  }

  // ----- ascending entries

  ghost predicate KeysBelow<V>(es: seq<Entry<V>>, key: int) { forall i :: 0 <= i < |es| ==> es[i].key < key }

  ghost predicate KeysAbove<V>(es: seq<Entry<V>>, key: int) { forall i :: 0 <= i < |es| ==> key < es[i].key }

  ghost predicate HasKey<V>(es: seq<Entry<V>>, key: int) { exists i :: 0 <= i < |es| && es[i].key == key }

  lemma Parts<V>(a: seq<Entry<V>>, e: Entry<V>, b: seq<Entry<V>>)
    ensures Ascending(a + [e] + b) <==> Ascending(a) && Ascending(b) && KeysBelow(a, e.key) && KeysAbove(b, e.key)
  {
    var es := a + [e] + b;
    if Ascending(es) {
      forall i, j | 0 <= i < j < |a| ensures a[i].key < a[j].key { assert es[i].key < es[j].key; }
      forall i, j | 0 <= i < j < |b| ensures b[i].key < b[j].key {
        assert es[|a| + 1 + i].key < es[|a| + 1 + j].key;
      }
      forall i | 0 <= i < |a| ensures a[i].key < e.key { assert es[i].key < es[|a|].key; }
      forall i | 0 <= i < |b| ensures e.key < b[i].key { assert es[|a|].key < es[|a| + 1 + i].key; }
    }
  }

  lemma PartsHave<V>(a: seq<Entry<V>>, e: Entry<V>, b: seq<Entry<V>>, key: int)
    ensures HasKey(a + [e] + b, key) <==> HasKey(a, key) || e.key == key || HasKey(b, key)
  {
    var es := a + [e] + b;
    assert es[|a|] == e;
    if HasKey(a, key) {
      var i :| 0 <= i < |a| && a[i].key == key;
      assert es[i].key == key;
    }
    if HasKey(b, key) {
      var i :| 0 <= i < |b| && b[i].key == key;
      assert es[|a| + 1 + i].key == key;
    }
  }

  /** How many entries come before the key. */
  function Rank<V>(es: seq<Entry<V>>, key: int): (n: nat)
    ensures n <= |es|
  {
    if es == [] || es[|es| - 1].key < key then |es| else Rank(es[..|es| - 1], key)
  }

  lemma {:induction false} RankParts<V>(es: seq<Entry<V>>, key: int)
    requires Ascending(es)
    ensures var n := Rank(es, key); KeysBelow(es[..n], key) && forall i :: n <= i < |es| ==> key <= es[i].key
    decreases |es|
  {
    if es != [] {
      var init := es[..|es| - 1];
      if es[|es| - 1].key < key {
        assert forall i :: 0 <= i < |es| - 1 ==> es[i].key < es[|es| - 1].key;
      } else {
        RankParts(init, key);
        assert es[..Rank(init, key)] == init[..Rank(init, key)];
      }
    }
  }

  /** The place of a key is determined by what is before and after it. */
  lemma RankIs<V>(es: seq<Entry<V>>, key: int, n: nat)
    requires Ascending(es) && n <= |es|
    requires KeysBelow(es[..n], key) && forall i :: n <= i < |es| ==> key <= es[i].key
    ensures Rank(es, key) == n
  {
    RankParts(es, key);
    var m := Rank(es, key);
    assert forall i :: 0 <= i < n ==> es[..n][i] == es[i];
    assert forall i :: 0 <= i < m ==> es[..m][i] == es[i];
  }

  // ----- split and merge

  /** The root's priority is not above that of a. */
  predicate NotAbove<V>(t: Tree<V>, a: Tree<V>) { t.Node? ==> a.Node? && t.y <= a.y }

  lemma JoinLeft<V>(a: seq<Entry<V>>, b: seq<Entry<V>>, e: Entry<V>, r: seq<Entry<V>>)
    ensures a + (b + [e] + r) == (a + b) + [e] + r
  {
  }

  lemma JoinRight<V>(l: seq<Entry<V>>, e: Entry<V>, a: seq<Entry<V>>, b: seq<Entry<V>>)
    ensures (l + [e] + a) + b == l + [e] + (a + b)
  {
  }

  /** Replacing one side of a node by a tree that is not higher keeps the shape. */
  lemma RelaxShape<V>(t: Tree<V>, l: Tree<V>, r: Tree<V>)
    requires t.Node? && Shaped(l) && Shaped(r) && Below(l, t.y) && Below(r, t.y)
    ensures Shaped(Relax(t.(left := l, right := r)))
    ensures Entries(Relax(t.(left := l, right := r))) == Entries(l) + [Entry(t.key, t.value)] + Entries(r)
  {
    SizeIs(l);
    SizeIs(r);
  }

  lemma {:induction false} SplitEntries<V>(t: Tree<V>, key: int)
    requires Shaped(t)
    ensures var p := Split(t, key);
      Entries(p.0) + Entries(p.1) == Entries(t) && Shaped(p.0) && Shaped(p.1) && NotAbove(p.0, t) && NotAbove(p.1, t)
    decreases t
  {
    if t.Node? {
      var e := Entry(t.key, t.value);
      if key < t.key {
        SplitEntries(t.left, key);
        var p := Split(t.left, key);
        RelaxShape(t, p.1, t.right);
        JoinLeft(Entries(p.0), Entries(p.1), e, Entries(t.right));
      } else {
        SplitEntries(t.right, key);
        var p := Split(t.right, key);
        RelaxShape(t, t.left, p.0);
        JoinRight(Entries(t.left), e, Entries(p.0), Entries(p.1));
      }
    }
  }

  ghost predicate KeysUpTo<V>(es: seq<Entry<V>>, key: int) { forall i :: 0 <= i < |es| ==> es[i].key <= key }

  lemma UpToParts<V>(a: seq<Entry<V>>, e: Entry<V>, b: seq<Entry<V>>, key: int)
    requires KeysUpTo(a, key) && e.key <= key && KeysUpTo(b, key)
    ensures KeysUpTo(a + [e] + b, key)
  {
  }

  lemma AboveParts<V>(a: seq<Entry<V>>, e: Entry<V>, b: seq<Entry<V>>, key: int)
    requires KeysAbove(a, key) && key < e.key && KeysAbove(b, key)
    ensures KeysAbove(a + [e] + b, key)
  {
  }

  lemma {:induction false} SplitKeys<V>(t: Tree<V>, key: int)
    requires Ascending(Entries(t))
    ensures KeysUpTo(Entries(Split(t, key).0), key) && KeysAbove(Entries(Split(t, key).1), key)
    decreases t
  {
    if t.Node? {
      var l, r, e := Entries(t.left), Entries(t.right), Entry(t.key, t.value);
      Parts(l, e, r);
      if key < t.key {
        SplitKeys(t.left, key);
        AboveParts(Entries(Split(t.left, key).1), e, r, key);
      } else {
        SplitKeys(t.right, key);
        UpToParts(l, e, Entries(Split(t.right, key).0), key);
      }
    }
  }

  lemma {:induction false} MergeIs<V>(l: Tree<V>, r: Tree<V>)
    requires Shaped(l) && Shaped(r)
    ensures var m := Merge(l, r);
      Entries(m) == Entries(l) + Entries(r) && Shaped(m) && (NotAbove(m, l) || NotAbove(m, r))
    decreases l, r
  {
    if l.Leaf? {
      assert [] + Entries(r) == Entries(r);
    } else if r.Leaf? {
      assert Entries(l) + [] == Entries(l);
    } else if l.y < r.y {
      MergeIs(l, r.left);
      RelaxShape(r, Merge(l, r.left), r.right);
      JoinLeft(Entries(l), Entries(r.left), Entry(r.key, r.value), Entries(r.right));
    } else {
      MergeIs(l.right, r);
      RelaxShape(l, l.left, Merge(l.right, r));
      JoinRight(Entries(l.left), Entry(l.key, l.value), Entries(l.right), Entries(r));
    }
  }

  // ----- insertion

  function With<V>(es: seq<Entry<V>>, n: nat, e: Entry<V>): seq<Entry<V>>
    requires n <= |es|
  {
    es[..n] + [e] + es[n..]
  }

  lemma WithLeft<V>(a: seq<Entry<V>>, e: Entry<V>, b: seq<Entry<V>>, n: nat, x: Entry<V>)
    requires n <= |a|
    ensures With(a + [e] + b, n, x) == With(a, n, x) + [e] + b
  {
  }

  lemma WithRight<V>(a: seq<Entry<V>>, e: Entry<V>, b: seq<Entry<V>>, n: nat, m: nat, x: Entry<V>)
    requires n <= |b| && m == |a| + 1 + n
    ensures With(a + [e] + b, m, x) == a + [e] + With(b, n, x)
  {
  }

  /** The entries of an absent key's tree: they are put into their place, and everything else stays. */
  ghost predicate Inserted<V>(t: Tree<V>, x: Entry<V>, y: nat, t': Tree<V>) {
    && Entries(t') == With(Entries(t), Rank(Entries(t), x.key), x)
    && Shaped(t') && t'.Node? && (t'.y == y || NotAbove(t', t))
  }

  lemma {:induction false} InsertIs<V>(t: Tree<V>, key: int, value: V, y: nat)
    requires Valid(t) && !HasKey(Entries(t), key)
    ensures Inserted(t, Entry(key, value), y, Insert(t, key, value, y))
    decreases t
  {
    if t.Leaf? {
      assert Entries(Insert(t, key, value, y)) == [] + [Entry(key, value)] + [];
    } else if t.y < y {
      InsertAbove(t, key, value, y);
    } else {
      InsertBelow(t, key);
      if key < t.key {
        InsertIs(t.left, key, value, y);
        InsertedLeft(t, Entry(key, value), y, Insert(t.left, key, value, y));
      } else {
        InsertIs(t.right, key, value, y);
        InsertedRight(t, Entry(key, value), y, Insert(t.right, key, value, y));
      }
    }
  }

  lemma InsertedLeft<V>(t: Tree<V>, x: Entry<V>, y: nat, u: Tree<V>)
    requires Shaped(t) && t.Node? && y <= t.y && Inserted(t.left, x, y, u)
    requires Rank(Entries(t), x.key) == Rank(Entries(t.left), x.key)
    ensures Inserted(t, x, y, Relax(t.(left := u)))
  {
    RelaxShape(t, u, t.right);
    WithLeft(Entries(t.left), Entry(t.key, t.value), Entries(t.right), Rank(Entries(t.left), x.key), x);
  }

  lemma InsertedRight<V>(t: Tree<V>, x: Entry<V>, y: nat, u: Tree<V>)
    requires Shaped(t) && t.Node? && y <= t.y && Inserted(t.right, x, y, u)
    requires Rank(Entries(t), x.key) == |Entries(t.left)| + 1 + Rank(Entries(t.right), x.key)
    ensures Inserted(t, x, y, Relax(t.(right := u)))
  {
    RelaxShape(t, t.left, u);
    WithRight(Entries(t.left), Entry(t.key, t.value), Entries(t.right), Rank(Entries(t.right), x.key), Rank(Entries(t), x.key), x);
  }

  /** The new node becomes the root. */
  lemma InsertAbove<V>(t: Tree<V>, key: int, value: V, y: nat)
    requires Valid(t) && !HasKey(Entries(t), key) && t.Node? && t.y < y
    ensures Inserted(t, Entry(key, value), y, Insert(t, key, value, y))
  {
    SplitEntries(t, key);
    SplitKeys(t, key);
    var p := Split(t, key);
    RelaxShape(Node(p.0, p.1, 1, key, value, y), p.0, p.1);
    CutRank(Entries(p.0), Entries(p.1), Entries(t), key);
  }

  lemma CutRank<V>(a: seq<Entry<V>>, b: seq<Entry<V>>, es: seq<Entry<V>>, key: int)
    requires a + b == es && Ascending(es) && !HasKey(es, key) && KeysUpTo(a, key) && KeysAbove(b, key)
    ensures Rank(es, key) == |a| && es[..|a|] == a && es[|a|..] == b
  {
    assert es[..|a|] == a && es[|a|..] == b;
    forall i | 0 <= i < |a| ensures a[i].key < key { assert es[i].key != key; }
    forall i | |a| <= i < |es| ensures key <= es[i].key { assert es[i] == b[i - |a|]; }
    RankIs(es, key, |a|);
  }

  /** The two sides, and the place of the key in them. */
  lemma InsertBelow<V>(t: Tree<V>, key: int)
    requires Valid(t) && !HasKey(Entries(t), key) && t.Node?
    ensures t.key != key && Valid(t.left) && Valid(t.right)
    ensures !HasKey(Entries(t.left), key) && !HasKey(Entries(t.right), key)
    ensures Rank(Entries(t), key)
         == if key < t.key then Rank(Entries(t.left), key) else |Entries(t.left)| + 1 + Rank(Entries(t.right), key)
  {
    var l, r, e := Entries(t.left), Entries(t.right), Entry(t.key, t.value);
    Parts(l, e, r);
    PartsHave(l, e, r, key);
    if key < t.key { RankLeft(l, e, r, key); } else { RankRight(l, e, r, key); }
  }

  lemma RankLeft<V>(l: seq<Entry<V>>, e: Entry<V>, r: seq<Entry<V>>, key: int)
    requires Ascending(l + [e] + r) && key < e.key
    ensures Rank(l + [e] + r, key) == Rank(l, key)
  {
    Parts(l, e, r);
    var n, es := Rank(l, key), l + [e] + r;
    RankParts(l, key);
    assert es[..n] == l[..n];
    forall i | n <= i < |es| ensures key <= es[i].key {
      if i < |l| { assert es[i] == l[i]; } else if i > |l| { assert es[i] == r[i - |l| - 1]; }
    }
    RankIs(es, key, n);
  }

  lemma RankRight<V>(l: seq<Entry<V>>, e: Entry<V>, r: seq<Entry<V>>, key: int)
    requires Ascending(l + [e] + r) && e.key < key
    ensures Rank(l + [e] + r, key) == |l| + 1 + Rank(r, key)
  {
    Parts(l, e, r);
    var n, es := Rank(r, key), l + [e] + r;
    RankParts(r, key);
    var m := |l| + 1 + n;
    forall i | 0 <= i < m ensures es[..m][i].key < key {
      if i < |l| { assert es[i] == l[i]; } else if i > |l| { assert es[i] == r[..n][i - |l| - 1]; }
    }
    forall i | m <= i < |es| ensures key <= es[i].key { assert es[i] == r[i - |l| - 1]; }
    RankIs(es, key, m);
  }

  lemma WithAscending<V>(es: seq<Entry<V>>, x: Entry<V>)
    requires Ascending(es) && !HasKey(es, x.key)
    ensures Ascending(With(es, Rank(es, x.key), x))
  {
    var n := Rank(es, x.key);
    RankParts(es, x.key);
    var a, b := es[..n], es[n..];
    forall i, j | 0 <= i < j < |b| ensures b[i].key < b[j].key { assert es[n + i].key < es[n + j].key; }
    forall i | 0 <= i < |b| ensures x.key < b[i].key { assert es[n + i].key != x.key; }
    Parts(a, x, b);
  }

  lemma InsertValid<V>(t: Tree<V>, key: int, value: V, y: nat)
    requires Valid(t) && !HasKey(Entries(t), key)
    ensures Valid(Insert(t, key, value, y))
  {
    InsertIs(t, key, value, y);
    WithAscending(Entries(t), Entry(key, value));
  }

  /** The priority of the key's node. */
  function PriorityOf<V>(t: Tree<V>, key: int): nat {
    if t.Leaf? then 0 else if key < t.key then PriorityOf(t.left, key) else if t.key < key then PriorityOf(t.right, key) else t.y
  }

  lemma {:induction false} PriorityBelow<V>(t: Tree<V>, key: int)
    requires Heaped(t) && t.Node?
    ensures PriorityOf(t, key) <= t.y
    decreases t
  {
    if key < t.key {
      if t.left.Node? { PriorityBelow(t.left, key); }
    } else if t.key < key {
      if t.right.Node? { PriorityBelow(t.right, key); }
    }
  }

  /** A present key: the tree stays as it is, or holds one entry more and is no longer ascending. */
  lemma {:induction false} InsertPresent<V>(t: Tree<V>, key: int, value: V, y: nat)
    requires Valid(t) && HasKey(Entries(t), key)
    ensures var t' := Insert(t, key, value, y);
      if y <= PriorityOf(t, key) then t' == t else |Entries(t')| == |Entries(t)| + 1 && !Ascending(Entries(t'))
    decreases t
  {
    var l, r, e := Entries(t.left), Entries(t.right), Entry(t.key, t.value);
    Parts(l, e, r);
    PartsHave(l, e, r, key);
    PriorityBelow(t, key);
    SizeIs(t.left);
    SizeIs(t.right);
    if t.y < y {
      SplitEntries(t, key);
      SplitKeys(t, key);
      var p := Split(t, key);
      Twice(Entries(p.0), Entries(p.1), Entries(t), key, value);
    } else if key < t.key {
      assert !HasKey(r, key);
      InsertPresent(t.left, key, value, y);
      Parts(Entries(Insert(t.left, key, value, y)), e, r);
    } else if t.key < key {
      assert !HasKey(l, key);
      InsertPresent(t.right, key, value, y);
      Parts(l, e, Entries(Insert(t.right, key, value, y)));
    }
  }

  lemma Twice<V>(a: seq<Entry<V>>, b: seq<Entry<V>>, es: seq<Entry<V>>, key: int, value: V)
    requires a + b == es && HasKey(es, key) && KeysAbove(b, key)
    ensures !Ascending(a + [Entry(key, value)] + b)
  {
    var i :| 0 <= i < |es| && es[i].key == key;
    assert forall j :: |a| <= j < |es| ==> es[j] == b[j - |a|];
    Parts(a, Entry(key, value), b);
    assert a[i].key == key;
  }

  /** So insertion keeps a valid tree exactly if the key is absent or its node's priority is not below the new one. */
  lemma InsertKeepsOrder<V>(t: Tree<V>, key: int, value: V, y: nat)
    requires Valid(t)
    ensures Valid(Insert(t, key, value, y)) <==> !HasKey(Entries(t), key) || y <= PriorityOf(t, key)
  {
    if HasKey(Entries(t), key) { InsertPresent(t, key, value, y); } else { InsertValid(t, key, value, y); }
  }

  const PRIORITIES: nat := 0x1_0000_0000   // the range of fast_uint32

  /**
   * The priority is drawn inside insert: the tree stays valid whatever is drawn exactly if the key
   * is absent, or its node has the highest priority there is.
   */
  lemma InsertAlwaysKeepsOrder<V>(t: Tree<V>, key: int, value: V)
    requires Valid(t)
    ensures (forall y: nat :: y < PRIORITIES ==> Valid(Insert(t, key, value, y)))
       <==> !HasKey(Entries(t), key) || PRIORITIES <= PriorityOf(t, key) + 1
  {
    forall y: nat ensures Valid(Insert(t, key, value, y)) <==> !HasKey(Entries(t), key) || y <= PriorityOf(t, key) {
      InsertKeepsOrder(t, key, value, y);
    }
    if PriorityOf(t, key) + 1 < PRIORITIES {
      InsertKeepsOrder(t, key, value, PriorityOf(t, key) + 1);
    }
  }

  function Single<V>(key: int, value: V, y: nat): (t: Tree<V>)
    ensures Entries(t) == [Entry(key, value)]
  {
    assert [] + [Entry(key, value)] + [] == [Entry(key, value)];
    Node(Leaf, Leaf, 1, key, value, y)
  }

  lemma SplitSingle<V>(key: int, value: V, y: nat)
    ensures Split(Single(key, value, y), key) == (Single(key, value, y), Leaf)
  {
  }

  /** A key inserted first with a low priority and then with a higher one is there twice, as 1 with priorities 0 and 1. */
  lemma InsertedTwice<V>(key: int, first: V, second: V, y: nat, z: nat)
    requires y < z
    ensures Insert(Leaf, key, first, y) == Single(key, first, y)
    ensures Entries(Insert(Single(key, first, y), key, second, z)) == [Entry(key, first), Entry(key, second)]
  {
    SplitSingle(key, first, y);
    var t := Single(key, first, y);
    assert Insert(t, key, second, z) == Relax(Node(t, Leaf, 1, key, second, z));
    assert [Entry(key, first)] + [Entry(key, second)] + [] == [Entry(key, first), Entry(key, second)];
  }

  // ----- removal and lookups

  lemma {:induction false} GetIs<V>(t: Tree<V>, key: int)
    requires Ascending(Entries(t))
    ensures match Get(t, key)
            case None => !HasKey(Entries(t), key)
            case Some(v) => exists i :: 0 <= i < |Entries(t)| && Entries(t)[i] == Entry(key, v)
    decreases t
  {
    if t.Node? {
      var l, r, e, es := Entries(t.left), Entries(t.right), Entry(t.key, t.value), Entries(t);
      Parts(l, e, r);
      PartsHave(l, e, r, key);
      if key < t.key {
        GetIs(t.left, key);
        if Get(t.left, key).Some? {
          var i :| 0 <= i < |l| && l[i] == Entry(key, Get(t.left, key).value);
          assert es[i] == l[i];
        }
      } else if t.key < key {
        GetIs(t.right, key);
        if Get(t.right, key).Some? {
          var i :| 0 <= i < |r| && r[i] == Entry(key, Get(t.right, key).value);
          assert es[|l| + 1 + i] == r[i];
        }
      } else {
        assert es[|l|] == e;
      }
    }
  }

  function Without<V>(es: seq<Entry<V>>, n: nat): seq<Entry<V>>
    requires n < |es|
  {
    es[..n] + es[n + 1..]
  }

  lemma WithoutLeft<V>(a: seq<Entry<V>>, e: Entry<V>, b: seq<Entry<V>>, n: nat)
    requires n < |a|
    ensures Without(a + [e] + b, n) == Without(a, n) + [e] + b
  {
  }

  lemma WithoutRight<V>(a: seq<Entry<V>>, e: Entry<V>, b: seq<Entry<V>>, n: nat, m: nat)
    requires n < |b| && m == |a| + 1 + n
    ensures Without(a + [e] + b, m) == a + [e] + Without(b, n)
  {
  }

  lemma WithoutMiddle<V>(a: seq<Entry<V>>, e: Entry<V>, b: seq<Entry<V>>)
    ensures Without(a + [e] + b, |a|) == a + b
  {
  }

  /** The place of a present key. */
  lemma PlaceOf<V>(es: seq<Entry<V>>, key: int, n: nat)
    requires Ascending(es) && n < |es| && es[n].key == key
    ensures Rank(es, key) == n
  {
    forall i | 0 <= i < n ensures es[..n][i].key < key { assert es[i].key < es[n].key; }
    forall i | n <= i < |es| ensures key <= es[i].key { if i > n { assert es[n].key < es[i].key; } }
    RankIs(es, key, n);
  }

  /** A present key's entry goes, an absent key changes nothing. */
  ghost predicate Removed<V>(es: seq<Entry<V>>, key: int, ws: seq<Entry<V>>) {
    if HasKey(es, key) then Rank(es, key) < |es| && ws == Without(es, Rank(es, key)) else ws == es
  }

  lemma {:induction false} RemoveIs<V>(t: Tree<V>, key: int)
    requires Valid(t)
    ensures Removed(Entries(t), key, Entries(Remove(t, key))) && Shaped(Remove(t, key)) && NotAbove(Remove(t, key), t)
    decreases t
  {
    if t.Node? {
      var l, r, e := Entries(t.left), Entries(t.right), Entry(t.key, t.value);
      Parts(l, e, r);
      if key < t.key {
        RemoveIs(t.left, key);
        RelaxShape(t, Remove(t.left, key), t.right);
        RemovedLeft(l, e, r, key, Entries(Remove(t.left, key)));
      } else if t.key < key {
        RemoveIs(t.right, key);
        RelaxShape(t, t.left, Remove(t.right, key));
        RemovedRight(l, e, r, key, Entries(Remove(t.right, key)));
      } else {
        MergeIs(t.left, t.right);
        var m := Merge(t.left, t.right);
        if m.Node? { RelaxShape(m, m.left, m.right); }
        RemovedHere(l, e, r);
      }
    }
  }

  lemma RemovedHere<V>(l: seq<Entry<V>>, e: Entry<V>, r: seq<Entry<V>>)
    requires Ascending(l + [e] + r)
    ensures Removed(l + [e] + r, e.key, l + r)
  {
    assert (l + [e] + r)[|l|] == e;
    PlaceOf(l + [e] + r, e.key, |l|);
    WithoutMiddle(l, e, r);
  }

  lemma RemovedLeft<V>(l: seq<Entry<V>>, e: Entry<V>, r: seq<Entry<V>>, key: int, ws: seq<Entry<V>>)
    requires Ascending(l + [e] + r) && key < e.key && Removed(l, key, ws)
    ensures Removed(l + [e] + r, key, ws + [e] + r)
  {
    Parts(l, e, r);
    PartsHave(l, e, r, key);
    if HasKey(l, key) {
      PresentRank(l, key);
      RankLeft(l, e, r, key);
      WithoutLeft(l, e, r, Rank(l, key));
    }
  }

  lemma RemovedRight<V>(l: seq<Entry<V>>, e: Entry<V>, r: seq<Entry<V>>, key: int, ws: seq<Entry<V>>)
    requires Ascending(l + [e] + r) && e.key < key && Removed(r, key, ws)
    ensures Removed(l + [e] + r, key, l + [e] + ws)
  {
    Parts(l, e, r);
    PartsHave(l, e, r, key);
    if HasKey(r, key) {
      PresentRank(r, key);
      RankRight(l, e, r, key);
      WithoutRight(l, e, r, Rank(r, key), |l| + 1 + Rank(r, key));
    }
  }

  lemma PresentRank<V>(es: seq<Entry<V>>, key: int)
    requires Ascending(es) && HasKey(es, key)
    ensures Rank(es, key) < |es|
  {
    var n :| 0 <= n < |es| && es[n].key == key;
    PlaceOf(es, key, n);
  }

  lemma WithoutAscending<V>(es: seq<Entry<V>>, n: nat)
    requires Ascending(es) && n < |es|
    ensures Ascending(Without(es, n)) && !HasKey(Without(es, n), es[n].key)
  {
    var ws := Without(es, n);
    forall i, j | 0 <= i < j < |ws| ensures ws[i].key < ws[j].key {
      assert es[if i < n then i else i + 1].key < es[if j < n then j else j + 1].key;
    }
    forall i | 0 <= i < |ws| ensures ws[i].key != es[n].key {
      if i < n { assert es[i].key < es[n].key; } else { assert es[n].key < es[i + 1].key; }
    }
  }

  lemma RemoveValid<V>(t: Tree<V>, key: int)
    requires Valid(t)
    ensures Valid(Remove(t, key)) && !HasKey(Entries(Remove(t, key)), key)
  {
    RemoveIs(t, key);
    RemovedAscending(Entries(t), key, Entries(Remove(t, key)));
  }

  lemma RemovedAscending<V>(es: seq<Entry<V>>, key: int, ws: seq<Entry<V>>)
    requires Ascending(es) && Removed(es, key, ws)
    ensures Ascending(ws) && !HasKey(ws, key)
  {
    if HasKey(es, key) {
      var n :| 0 <= n < |es| && es[n].key == key;
      PlaceOf(es, key, n);
      WithoutAscending(es, n);
    }
  }

  /** Removal undoes an insertion. */
  lemma RemoveInserted<V>(t: Tree<V>, key: int, value: V, y: nat)
    requires Valid(t) && !HasKey(Entries(t), key)
    ensures Entries(Remove(Insert(t, key, value, y), key)) == Entries(t)
  {
    var t' := Insert(t, key, value, y);
    InsertIs(t, key, value, y);
    InsertValid(t, key, value, y);
    RemoveIs(t', key);
    RemovedWith(Entries(t), Rank(Entries(t), key), Entry(key, value), Entries(Remove(t', key)));
  }

  lemma RemovedWith<V>(es: seq<Entry<V>>, n: nat, x: Entry<V>, ws: seq<Entry<V>>)
    requires n <= |es| && Ascending(With(es, n, x)) && Removed(With(es, n, x), x.key, ws)
    ensures ws == es
  {
    var with := With(es, n, x);
    assert with[n] == x;
    PlaceOf(with, x.key, n);
    assert Without(with, n) == es;
  }

  /** get_node_by_idx: its check holds, and it gives the entry with that many before it. */
  method GetByIdx<V>(t: Tree<V>, idx: nat) returns (value: V)
    requires Sized(t) && idx < SizeOf(t)
    ensures |Entries(t)| == SizeOf(t) && value == Entries(t)[idx].value
    decreases t
  {
    SizeIs(t);
    SizeIs(t.left);
    SizeIs(t.right);
    var s := SizeOf(t.left);
    if idx < s {
      value := GetByIdx(t.left, idx);
    } else if idx == s {
      value := t.value;
    } else {
      value := GetByIdx(t.right, idx - s - 1);
    }
  }
}
