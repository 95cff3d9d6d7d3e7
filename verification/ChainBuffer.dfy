/**
 * The chained buffers of pxcutils/pxc/utils/buffer.h, with one writer and any number of
 * iterators in other threads, as a state machine with one step per atomic operation.
 *
 * The writer publishes bytes at the end of the last node, or links a new node and then gives up
 * the last one.  An iterator that has read all it knows of loads has_writer first, then the
 * published end, and leaves its node only if there was no writer.  The theorems: what an
 * iterator has read is always a prefix of what was appended; a read that returns nothing has
 * met everything appended before it looked; and an iterator that is behind another one always
 * finds something to read.
 */
module ChainBuffer {
  type Byte = b: nat | b < 256

  type Text = seq<Byte>

  // ----- state

  /** published: the bytes up to end_ of the buffer; known: how many a fresh copy of slice_ has. */
  datatype Node = Node(published: Text, known: nat, sync: bool, hasWriter: bool, linked: bool)

  datatype WriterPc =
    | Writing
    | Linked     // next_ of the last node is set; the last node is still to be released
    | Closed

  datatype IterPc =
    | Ready                              // outside prepare_read, or at the start of its loop
    | Loaded(hadWriter: bool, seen: nat) // has_writer is loaded; seen is history: bytes appended by then
    | Leaving                            // about to load next_

  /** log is history: the bytes confirmed so far. */
  datatype Iter = Iter(node: nat, begin: nat, end: nat, sync: bool, offset: nat, pc: IterPc, gone: bool, log: Text)

  /** appended is history: the bytes of all completed appends. */
  datatype State = State(nodes: seq<Node>, tail: nat, writer: WriterPc, iters: seq<Iter>, appended: Text)

  function FirstIter(): Iter { Iter(0, 0, 0, true, 0, Ready, false, []) }

  ghost predicate Init(s: State) {
    && s.nodes == [Node([], 0, true, true, false)] && s.tail == 0 && s.writer == Writing
    && s.iters == [FirstIter()] && s.appended == []
  }

  // ----- steps

  datatype Action =
    | Publish(bytes: Text)     // confirm_append, in a node that has a writer's buffer
    | LinkEmpty                // prepare_append_alloc up to next_
    | LinkSlice(bytes: Text)   // append of a slice as a node of its own
    | Release                  // the old last node loses its writer
    | Close                    // the writer is destroyed
    | Look(i: nat)             // load has_writer
    | Sync(i: nat)             // load the published end
    | Leave(i: nat)            // go to the next node
    | Confirm(i: nat, k: nat)
    | Clone(i: nat)

  ghost predicate Enabled(s: State, a: Action) {
    match a
    case Publish(_) => s.writer == Writing && s.tail < |s.nodes| && s.nodes[s.tail].sync
    case LinkEmpty => s.writer == Writing && s.tail < |s.nodes|
    case LinkSlice(_) => s.writer == Writing && s.tail < |s.nodes|
    case Release => s.writer == Linked && s.tail + 1 < |s.nodes|
    case Close => s.writer == Writing && s.tail < |s.nodes|
    case Look(i) => i < |s.iters| && CanLook(s.nodes, s.iters[i])
    case Sync(i) => i < |s.iters| && s.iters[i].pc.Loaded? && s.iters[i].node < |s.nodes|
    case Leave(i) => i < |s.iters| && s.iters[i].pc == Leaving && s.iters[i].node < |s.nodes|
    case Confirm(i, k) => i < |s.iters| && CanConfirm(s.nodes, s.iters[i], k)
    case Clone(i) => i < |s.iters| && s.iters[i].pc == Ready
  }

  predicate CanLook(nodes: seq<Node>, t: Iter) {
    t.pc == Ready && !t.gone && t.begin == t.end && t.node < |nodes|
  }

  predicate CanConfirm(nodes: seq<Node>, t: Iter, k: nat) {
    t.pc == Ready && !t.gone && t.begin + k <= t.end && t.node < |nodes| && t.end <= |nodes[t.node].published|
  }

  function Looking(n: Node, t: Iter, seen: nat): Iter { t.(pc := Loaded(n.hasWriter, seen)) }

  function Syncing(n: Node, t: Iter): Iter
    requires t.pc.Loaded?
  {
    var end := if t.sync then |n.published| else t.end;
    t.(end := end, pc := if t.begin == end && !t.pc.hadWriter then Leaving else Ready)
  }

  function LeavingNode(nodes: seq<Node>, t: Iter): Iter
    requires t.node < |nodes|
  {
    if nodes[t.node].linked && t.node + 1 < |nodes| then
      var n := nodes[t.node + 1];
      t.(node := t.node + 1, begin := 0, end := n.known, sync := n.sync, pc := Ready)
    else t.(gone := true, pc := Ready)
  }

  function Confirming(n: Node, t: Iter, k: nat): Iter
    requires t.begin + k <= |n.published|
  {
    t.(begin := t.begin + k, offset := t.offset + k, log := t.log + n.published[t.begin..t.begin + k])
  }

  function PutNode(s: State, n: Node): State
    requires s.tail < |s.nodes|
  {
    s.(nodes := s.nodes[s.tail := n])
  }

  function PutIter(s: State, i: nat, t: Iter): State
    requires i < |s.iters|
  {
    s.(iters := s.iters[i := t])
  }

  function Link(s: State, n: Node): State
    requires s.tail < |s.nodes|
  {
    s.(nodes := s.nodes[s.tail := s.nodes[s.tail].(linked := true)] + [n], writer := Linked)
  }

  function Publishing(s: State, bytes: Text): State
    requires s.tail < |s.nodes|
  {
    var n := s.nodes[s.tail];
    PutNode(s, n.(published := n.published + bytes)).(appended := s.appended + bytes)
  }

  function Releasing(s: State): State
    requires s.tail + 1 < |s.nodes|
  {
    PutNode(s, s.nodes[s.tail].(hasWriter := false))
      .(tail := s.tail + 1, writer := Writing, appended := s.appended + s.nodes[s.tail + 1].published)
  }

  function Do(s: State, a: Action): State
    requires Enabled(s, a)
  {
    match a
    case Publish(bytes) => Publishing(s, bytes)
    case LinkEmpty => Link(s, Node([], 0, true, true, false))
    case LinkSlice(bytes) => Link(s, Node(bytes, |bytes|, false, true, false))
    case Release => Releasing(s)
    case Close => PutNode(s, s.nodes[s.tail].(hasWriter := false)).(writer := Closed)
    case Look(i) => PutIter(s, i, Looking(s.nodes[s.iters[i].node], s.iters[i], |s.appended|))
    case Sync(i) => PutIter(s, i, Syncing(s.nodes[s.iters[i].node], s.iters[i]))
    case Leave(i) => PutIter(s, i, LeavingNode(s.nodes, s.iters[i]))
    case Confirm(i, k) => PutIter(s, i, Confirming(s.nodes[s.iters[i].node], s.iters[i], k))
    case Clone(i) => s.(iters := s.iters + [s.iters[i]])
  }

  ghost predicate Next(s: State, s': State) {
    exists a :: Enabled(s, a) && s' == Do(s, a)
  }

  // ----- the invariant

  /** The bytes of the first n nodes. */
  function Flat(nodes: seq<Node>, n: nat): Text
    requires n <= |nodes|
  {
    if n == 0 then [] else Flat(nodes, n - 1) + nodes[n - 1].published
  }

  /** A node before the last one is linked and has no writer; the last one has it until it is closed. */
  predicate NodeOK(nodes: seq<Node>, tail: nat, writer: WriterPc, j: nat)
    requires j < |nodes|
  {
    var n := nodes[j];
    && n.known <= |n.published| && (!n.sync ==> n.known == |n.published|)
    && n.linked == (j + 1 < |nodes|)
    && n.hasWriter == (j > tail || (j == tail && writer != Closed))
  }

  ghost predicate NodesOK(nodes: seq<Node>, tail: nat, writer: WriterPc, appended: Text) {
    && |nodes| == (if writer == Linked then tail + 2 else tail + 1)
    && (forall j :: 0 <= j < |nodes| ==> NodeOK(nodes, tail, writer, j))
    && appended == Flat(nodes, tail + 1)
  }

  ghost predicate IterOK(nodes: seq<Node>, tail: nat, writer: WriterPc, appended: Text, t: Iter) {
    var all := t.node <= tail && tail < |nodes| && Placed(nodes[t.node], t)
      && |t.log| == t.offset && t.log == Flat(nodes, t.node) + nodes[t.node].published[..t.begin]
      && PcOK(nodes, tail, writer, t);
    all
  }

  predicate Placed(n: Node, t: Iter) {
    t.begin <= t.end <= |n.published| && t.sync == n.sync && (!t.sync ==> t.end == |n.published|)
  }

  ghost predicate PcOK(nodes: seq<Node>, tail: nat, writer: WriterPc, t: Iter)
    requires t.node <= tail < |nodes|
  {
    && (t.gone ==> t.pc == Ready && writer == Closed && t.node == tail && t.begin == |nodes[t.node].published|)
    && match t.pc
       case Ready => true
       case Loaded(hadWriter, seen) =>
         if hadWriter then seen <= |Flat(nodes, t.node)| + |nodes[t.node].published| else !nodes[t.node].hasWriter
       case Leaving => !nodes[t.node].hasWriter && t.begin == |nodes[t.node].published|
  }

  ghost predicate IterAt(s: State, i: nat)
    requires i < |s.iters|
  {
    IterOK(s.nodes, s.tail, s.writer, s.appended, s.iters[i])
  }

  ghost predicate Inv(s: State) {
    && NodesOK(s.nodes, s.tail, s.writer, s.appended)
    && forall i :: 0 <= i < |s.iters| ==> IterAt(s, i)
  }

  lemma InitInv(s: State)
    requires Init(s)
    ensures Inv(s)
  {
    assert Flat(s.nodes, 1) == Flat(s.nodes, 0) + s.nodes[0].published;
    assert IterOK(s.nodes, 0, Writing, [], FirstIter());
  }

  // ----- flat texts

  /** The first n nodes have the same bytes. */
  ghost predicate SameBytes(a: seq<Node>, b: seq<Node>, n: nat) {
    n <= |a| && n <= |b| && forall j :: 0 <= j < n ==> b[j].published == a[j].published
  }

  lemma {:induction false} FlatSame(a: seq<Node>, b: seq<Node>, n: nat)
    requires SameBytes(a, b, n)
    ensures Flat(b, n) == Flat(a, n)
  {
    if n > 0 { FlatSame(a, b, n - 1); }
  }

  lemma {:induction false} FlatPrefix(nodes: seq<Node>, m: nat, n: nat)
    requires m <= n <= |nodes|
    ensures Flat(nodes, m) <= Flat(nodes, n)
  {
    if m < n { FlatPrefix(nodes, m, n - 1); }
  }

  /** An iterator has read a prefix of what was appended. */
  lemma ReadsPrefix(s: State, i: nat)
    requires Inv(s) && i < |s.iters|
    ensures s.iters[i].log <= s.appended && |s.iters[i].log| == s.iters[i].offset
  {
    var t := s.iters[i];
    assert IterAt(s, i);
    FlatPrefix(s.nodes, t.node + 1, s.tail + 1);
    var here := s.nodes[t.node].published;
    assert Flat(s.nodes, t.node + 1) == Flat(s.nodes, t.node) + here;
    assert t.log <= Flat(s.nodes, t.node + 1);
  }

  // ----- the writer's steps

  /** A change of the nodes that an iterator does not notice. */
  lemma IterStays(nodes: seq<Node>, tail: nat, writer: WriterPc, nodes': seq<Node>, tail': nat, writer': WriterPc,
                  appended: Text, appended': Text, t: Iter)
    requires IterOK(nodes, tail, writer, appended, t)
    requires tail <= tail' < |nodes'| && SameBytes(nodes, nodes', t.node)
    requires var n, n' := nodes[t.node], nodes'[t.node];
      n.published <= n'.published && n'.sync == n.sync && (!n.hasWriter ==> !n'.hasWriter && n'.published == n.published)
        && (!n.sync ==> n'.published == n.published)
    requires writer != Closed
    ensures IterOK(nodes', tail', writer', appended', t)
  {
    FlatSame(nodes, nodes', t.node);
  }

  lemma PublishInv(s: State, bytes: Text)
    requires Inv(s) && Enabled(s, Publish(bytes))
    ensures Inv(Publishing(s, bytes))
  {
    var s' := Publishing(s, bytes);
    FlatSame(s.nodes, s'.nodes, s.tail);
    assert s'.appended == Flat(s'.nodes, s.tail + 1) by {
      var a, b := Flat(s.nodes, s.tail), s.nodes[s.tail].published;
      assert (a + b) + bytes == a + (b + bytes);
    }
    assert NodesOK(s'.nodes, s'.tail, s'.writer, s'.appended) by {
      forall j | 0 <= j < |s'.nodes| ensures NodeOK(s'.nodes, s'.tail, s'.writer, j) {
        assert NodeOK(s.nodes, s.tail, s.writer, j);
      }
    }
    forall i | 0 <= i < |s'.iters| ensures IterAt(s', i) {
      assert IterAt(s, i) && NodeOK(s.nodes, s.tail, s.writer, s.iters[i].node);
      IterStays(s.nodes, s.tail, s.writer, s'.nodes, s'.tail, s'.writer, s.appended, s'.appended, s.iters[i]);
    }
  }

  lemma LinkInv(s: State, n: Node)
    requires Inv(s) && s.writer == Writing
    requires n.hasWriter && !n.linked && n.known <= |n.published| && (!n.sync ==> n.known == |n.published|)
    ensures Inv(Link(s, n))
  {
    var s' := Link(s, n);
    FlatSame(s.nodes, s'.nodes, s.tail + 1);
    assert NodesOK(s'.nodes, s'.tail, s'.writer, s'.appended) by {
      forall j | 0 <= j < |s'.nodes| ensures NodeOK(s'.nodes, s'.tail, s'.writer, j) {
        if j <= s.tail { assert NodeOK(s.nodes, s.tail, s.writer, j); }
      }
    }
    forall i | 0 <= i < |s'.iters| ensures IterAt(s', i) {
      assert IterAt(s, i);
      IterStays(s.nodes, s.tail, s.writer, s'.nodes, s'.tail, s'.writer, s.appended, s'.appended, s.iters[i]);
    }
  }

  lemma ReleaseInv(s: State)
    requires Inv(s) && Enabled(s, Release)
    ensures Inv(Releasing(s))
  {
    var s' := Releasing(s);
    FlatSame(s.nodes, s'.nodes, s.tail + 1);
    assert NodesOK(s'.nodes, s'.tail, s'.writer, s'.appended) by {
      forall j | 0 <= j < |s'.nodes| ensures NodeOK(s'.nodes, s'.tail, s'.writer, j) {
        assert NodeOK(s.nodes, s.tail, s.writer, j);
      }
    }
    forall i | 0 <= i < |s'.iters| ensures IterAt(s', i) {
      assert IterAt(s, i);
      IterStays(s.nodes, s.tail, s.writer, s'.nodes, s'.tail, s'.writer, s.appended, s'.appended, s.iters[i]);
    }
  }

  lemma CloseInv(s: State)
    requires Inv(s) && Enabled(s, Close)
    ensures Inv(Do(s, Close))
  {
    var s' := Do(s, Close);
    FlatSame(s.nodes, s'.nodes, s.tail + 1);
    assert NodesOK(s'.nodes, s'.tail, s'.writer, s'.appended) by {
      forall j | 0 <= j < |s'.nodes| ensures NodeOK(s'.nodes, s'.tail, s'.writer, j) {
        assert NodeOK(s.nodes, s.tail, s.writer, j);
      }
    }
    forall i | 0 <= i < |s'.iters| ensures IterAt(s', i) {
      assert IterAt(s, i);
      IterStays(s.nodes, s.tail, s.writer, s'.nodes, s'.tail, s'.writer, s.appended, s'.appended, s.iters[i]);
    }
  }

  // ----- the iterators' steps

  lemma LookOK(s: State, t: Iter)
    requires NodesOK(s.nodes, s.tail, s.writer, s.appended) && IterOK(s.nodes, s.tail, s.writer, s.appended, t)
    requires CanLook(s.nodes, t)
    ensures IterOK(s.nodes, s.tail, s.writer, s.appended, Looking(s.nodes[t.node], t, |s.appended|))
  {
    assert NodeOK(s.nodes, s.tail, s.writer, t.node);
    if s.nodes[t.node].hasWriter {
      assert t.node == s.tail;
      assert Flat(s.nodes, s.tail + 1) == Flat(s.nodes, s.tail) + s.nodes[s.tail].published;
    }
  }

  lemma SyncOK(s: State, t: Iter)
    requires IterOK(s.nodes, s.tail, s.writer, s.appended, t) && t.pc.Loaded? && t.node < |s.nodes|
    ensures IterOK(s.nodes, s.tail, s.writer, s.appended, Syncing(s.nodes[t.node], t))
  {
  }

  lemma LeaveOK(s: State, t: Iter)
    requires NodesOK(s.nodes, s.tail, s.writer, s.appended) && IterOK(s.nodes, s.tail, s.writer, s.appended, t)
    requires t.pc == Leaving && t.node < |s.nodes|
    ensures IterOK(s.nodes, s.tail, s.writer, s.appended, LeavingNode(s.nodes, t))
  {
    assert NodeOK(s.nodes, s.tail, s.writer, t.node);
    if t.node < s.tail {
      assert NodeOK(s.nodes, s.tail, s.writer, t.node + 1);
      var p := s.nodes[t.node].published;
      assert p[..t.begin] == p && s.nodes[t.node + 1].published[..0] == [];
      assert Flat(s.nodes, t.node + 1) + [] == Flat(s.nodes, t.node + 1);
    }
  }

  lemma ConfirmOK(s: State, t: Iter, k: nat)
    requires IterOK(s.nodes, s.tail, s.writer, s.appended, t) && CanConfirm(s.nodes, t, k)
    ensures IterOK(s.nodes, s.tail, s.writer, s.appended, Confirming(s.nodes[t.node], t, k))
  {
    var p := s.nodes[t.node].published;
    assert p[..t.begin + k] == p[..t.begin] + p[t.begin..t.begin + k];
    var f := Flat(s.nodes, t.node);
    assert (f + p[..t.begin]) + p[t.begin..t.begin + k] == f + p[..t.begin + k];
  }

  lemma PutIterInv(s: State, i: nat, t: Iter)
    requires Inv(s) && i < |s.iters| && IterOK(s.nodes, s.tail, s.writer, s.appended, t)
    ensures Inv(PutIter(s, i, t))
  {
    var s' := PutIter(s, i, t);
    forall k | 0 <= k < |s'.iters| ensures IterAt(s', k) {
      assert IterAt(s, k);
    }
  }

  lemma CloneInv(s: State, i: nat)
    requires Inv(s) && i < |s.iters|
    ensures Inv(s.(iters := s.iters + [s.iters[i]]))
  {
    var s' := s.(iters := s.iters + [s.iters[i]]);
    forall k | 0 <= k < |s'.iters| ensures IterAt(s', k) {
      if k < |s.iters| { assert IterAt(s, k); } else { assert IterAt(s, i); }
    }
  }

  lemma DoInv(s: State, a: Action)
    requires Inv(s) && Enabled(s, a)
    ensures Inv(Do(s, a))
  {
    match a
    case Publish(bytes) => PublishInv(s, bytes);
    case LinkEmpty => LinkInv(s, Node([], 0, true, true, false));
    case LinkSlice(bytes) => LinkInv(s, Node(bytes, |bytes|, false, true, false));
    case Release => ReleaseInv(s);
    case Close => CloseInv(s);
    case Look(i) =>
      assert IterAt(s, i);
      LookOK(s, s.iters[i]);
      PutIterInv(s, i, Looking(s.nodes[s.iters[i].node], s.iters[i], |s.appended|));
    case Sync(i) =>
      assert IterAt(s, i);
      SyncOK(s, s.iters[i]);
      PutIterInv(s, i, Syncing(s.nodes[s.iters[i].node], s.iters[i]));
    case Leave(i) =>
      assert IterAt(s, i);
      LeaveOK(s, s.iters[i]);
      PutIterInv(s, i, LeavingNode(s.nodes, s.iters[i]));
    case Confirm(i, k) =>
      assert IterAt(s, i);
      ConfirmOK(s, s.iters[i], k);
      PutIterInv(s, i, Confirming(s.nodes[s.iters[i].node], s.iters[i], k));
    case Clone(i) => CloneInv(s, i);
  }

  lemma StepInv(s: State, s': State)
    requires Inv(s) && Next(s, s')
    ensures Inv(s')
  {
    var a :| Enabled(s, a) && s' == Do(s, a);
    DoInv(s, a);
  }

  // ----- runs

  ghost predicate StepAt(run: seq<State>, i: nat)
    requires i + 1 < |run|
  {
    Next(run[i], run[i + 1])
  }

  ghost predicate IsRun(run: seq<State>) {
    run != [] && Init(run[0]) && forall i :: 0 <= i < |run| - 1 ==> StepAt(run, i)
  }

  lemma {:induction false} RunInv(run: seq<State>, i: nat)
    requires IsRun(run) && i < |run|
    ensures Inv(run[i])
  {
    if i == 0 {
      InitInv(run[0]);
    } else {
      RunInv(run, i - 1);
      assert StepAt(run, i - 1);
      StepInv(run[i - 1], run[i]);
    }
  }

  /** In every state of every run, every iterator has read a prefix of what was appended. */
  lemma ConsumedIsPrefix(run: seq<State>, k: nat, i: nat)
    requires IsRun(run) && k < |run| && i < |run[k].iters|
    ensures run[k].iters[i].log <= run[k].appended && |run[k].iters[i].log| == run[k].iters[i].offset
  {
    RunInv(run, k);
    ReadsPrefix(run[k], i);
  }

  /** An iterator that has met the end of the chain has read everything, and nothing will be appended any more. */
  lemma GoneReadAll(run: seq<State>, k: nat, i: nat)
    requires IsRun(run) && k < |run| && i < |run[k].iters| && run[k].iters[i].gone
    ensures run[k].iters[i].log == run[k].appended && run[k].writer == Closed
  {
    RunInv(run, k);
    var s := run[k];
    var t := s.iters[i];
    assert IterAt(s, i);
    var p := s.nodes[t.node].published;
    assert p[..|p|] == p;
  }

  /** A read that returns nothing since there is a writer has met all that was appended when it looked. */
  lemma NothingMeansAllSeen(s: State, i: nat)
    requires Inv(s) && Enabled(s, Sync(i)) && s.iters[i].pc.hadWriter
    ensures var t := Do(s, Sync(i)).iters[i];
      t.pc == Ready && (t.begin == t.end ==> s.iters[i].pc.seen <= t.offset)
  {
    var t := s.iters[i];
    assert IterAt(s, i);
    var p := s.nodes[t.node].published;
    if Syncing(s.nodes[t.node], t).end == t.begin {
      assert p[..t.begin] == p;
    }
  }

  /** What one iterator has read is there for another: an iterator that is behind never meets the end. */
  lemma BehindIsNotGone(s: State, i: nat, j: nat)
    requires Inv(s) && i < |s.iters| && j < |s.iters| && s.iters[i].offset < s.iters[j].offset
    ensures !s.iters[i].gone
  {
    ReadsPrefix(s, j);
    assert IterAt(s, i);
    var p := s.nodes[s.iters[i].node].published;
    assert p[..|p|] == p;
  }

  /** When i looks while j is ahead, the read that follows returns something or goes on to the next node. */
  lemma BehindFindsMore(s: State, i: nat, j: nat, r: State)
    requires Inv(s) && Enabled(s, Look(i)) && j < |s.iters| && s.iters[i].offset < s.iters[j].offset
    requires Inv(r) && i < |r.iters| && r.iters[i] == Do(s, Look(i)).iters[i] && r.iters[i].node < |r.nodes|
    ensures var t := Syncing(r.nodes[r.iters[i].node], r.iters[i]); t.begin < t.end || t.pc == Leaving
  {
    ReadsPrefix(s, j);
    assert IterAt(r, i);
    if r.iters[i].pc.hadWriter { NothingMeansAllSeen(r, i); }
  }
}
