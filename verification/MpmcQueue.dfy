/**
 * MpmcQueue of pxcutils/pxc/utils/MpmcQueue.h, as a state machine with one step per atomic
 * operation and any number of pushing and popping threads.  Nodes are never freed.
 *
 * Each pushed item has an identity, and place says where it is.  The theorems: an item is in
 * exactly one hand, slot or return value; a stored item is never out of reach of the readers;
 * and try_pop answers that there is nothing only if every item stored before the call is
 * popped or claimed by a thread that is about to return it.
 */
module MpmcQueue {
  const SIZE: nat := 1024

  type Item = nat

  // ----- state

  /** OneValue */
  datatype Slot = Empty | Taken | Value(item: Item)

  /** pushers and poppers are history: the threads that got the positions so far. */
  datatype Node = Node(slots: seq<Slot>, writePos: nat, readPos: nat, pushers: seq<nat>, poppers: seq<nat>)

  datatype Place = Hand(thread: nat) | InSlot(node: nat, pos: nat) | Popped

  /** before is history: the items that were stored when the call of try_pop began. */
  datatype Pc =
    | Idle
    | PushStart(item: Item)                           // about to load write_pos_
    | PushAt(item: Item, node: nat)                   // about to take a position of the block
    | PushClaimed(item: Item, node: nat, pos: nat)    // set_value
    | PushFull(item: Item, node: nat)                 // about to load next
    | PushNew(item: Item, node: nat)                  // about to link a new node that holds the item
    | PushSwing(item: Item, node: nat)                // about to advance write_pos_ and try again
    | PushDone(node: nat)                             // about to advance write_pos_ and return
    | PopStart(before: set<Item>)                     // about to load read_pos_
    | PopAt(node: nat, before: set<Item>)             // about to load the block's write_pos
    | PopWrite(node: nat, write: nat, before: set<Item>)  // about to load its read_pos
    | PopCheck(node: nat, write: nat, before: set<Item>)  // about to load next, to answer
    | PopClaim(node: nat, before: set<Item>)          // about to take a position
    | PopClaimed(node: nat, pos: nat, before: set<Item>)  // get_value
    | PopFull(node: nat, before: set<Item>)           // about to load next
    | PopSwing(node: nat, before: set<Item>)          // about to advance read_pos_
    | PopFailed(before: set<Item>)                    // returning false

  /** popped is history: what try_pop returned, in this order. */
  datatype State = State(
    nodes: seq<Node>, writeNode: nat, readNode: nat, threads: seq<Pc>, place: map<Item, Place>, popped: seq<Item>)

  function NewNode(): Node { Node(seq(SIZE, _ => Empty), 0, 0, [], []) }

  ghost predicate Init(s: State) {
    && s.nodes == [NewNode()] && s.writeNode == 0 && s.readNode == 0 && s.place == map[] && s.popped == []
    && forall t :: 0 <= t < |s.threads| ==> s.threads[t] == Idle
  }

  // ----- steps

  datatype Action = StartPush(t: nat, item: Item) | StartPop(t: nat) | Step(t: nat)

  ghost predicate Enabled(s: State, a: Action) {
    && a.t < |s.threads|
    && match a
       case StartPush(t, item) => s.threads[t] == Idle && item !in s.place
       case StartPop(t) => s.threads[t] == Idle
       case Step(t) => s.threads[t] != Idle && CanStep(s, s.threads[t])
  }

  /** The step does not leave the chain or a block. */
  predicate CanStep(s: State, pc: Pc) {
    match pc
    case PushAt(_, n) => n < |s.nodes|
    case PushClaimed(_, n, pos) => n < |s.nodes| && pos < |s.nodes[n].slots|
    case PushNew(_, n) => n < |s.nodes|
    case PopAt(n, _) => n < |s.nodes|
    case PopWrite(n, _, _) => n < |s.nodes|
    case PopClaim(n, _) => n < |s.nodes|
    case PopClaimed(n, pos, _) => n < |s.nodes| && pos < |s.nodes[n].slots|
    case _ => true
  }

  function Go(s: State, t: nat, pc: Pc): State
    requires t < |s.threads|
  {
    s.(threads := s.threads[t := pc])
  }

  function PutNode(s: State, n: nat, node: Node): State
    requires n < |s.nodes|
  {
    s.(nodes := s.nodes[n := node])
  }

  function PutPlace(s: State, item: Item, p: Place): State { s.(place := s.place[item := p]) }

  function TakeWritePos(s: State, t: nat, item: Item, n: nat): State
    requires t < |s.threads| && n < |s.nodes|
  {
    var node := s.nodes[n];
    var pos := node.writePos;
    Go(PutNode(s, n, node.(writePos := pos + 1, pushers := node.pushers + [t])), t,
       if pos >= SIZE then PushFull(item, n) else PushClaimed(item, n, pos))
  }

  function SetValue(s: State, t: nat, item: Item, n: nat, pos: nat): State
    requires t < |s.threads| && n < |s.nodes| && pos < |s.nodes[n].slots|
  {
    var node := s.nodes[n];
    if node.slots[pos] == Empty then
      Go(PutPlace(PutNode(s, n, node.(slots := node.slots[pos := Value(item)])), item, InSlot(n, pos)), t, Idle)
    else Go(s, t, PushStart(item))
  }

  function LinkNode(s: State, t: nat, item: Item, n: nat): State
    requires t < |s.threads|
  {
    if n + 1 < |s.nodes| then Go(s, t, PushStart(item))
    else
      var node := Node(NewNode().slots[0 := Value(item)], 1, 0, [t], []);
      Go(PutPlace(s.(nodes := s.nodes + [node]), item, InSlot(|s.nodes|, 0)), t, PushDone(n))
  }

  function TakeReadPos(s: State, t: nat, n: nat, before: set<Item>): State
    requires t < |s.threads| && n < |s.nodes|
  {
    var node := s.nodes[n];
    var pos := node.readPos;
    Go(PutNode(s, n, node.(readPos := pos + 1, poppers := node.poppers + [t])), t,
       if pos >= SIZE then PopFull(n, before) else PopClaimed(n, pos, before))
  }

  function GetValue(s: State, t: nat, n: nat, pos: nat, before: set<Item>): State
    requires t < |s.threads| && n < |s.nodes| && pos < |s.nodes[n].slots|
  {
    var node := s.nodes[n];
    var s' := PutNode(s, n, node.(slots := node.slots[pos := Taken]));
    if node.slots[pos].Value? then
      var item := node.slots[pos].item;
      Go(PutPlace(s', item, Popped).(popped := s.popped + [item]), t, Idle)
    else Go(s', t, PopStart(before))
  }

  function Stepping(s: State, t: nat): State
    requires t < |s.threads| && s.threads[t] != Idle && CanStep(s, s.threads[t])
  {
    match s.threads[t]
    case PushStart(item) => Go(s, t, PushAt(item, s.writeNode))
    case PushAt(item, n) => TakeWritePos(s, t, item, n)
    case PushClaimed(item, n, pos) => SetValue(s, t, item, n, pos)
    case PushFull(item, n) => Go(s, t, if n + 1 < |s.nodes| then PushSwing(item, n) else PushNew(item, n))
    case PushNew(item, n) => LinkNode(s, t, item, n)
    case PushSwing(item, n) => Go(s.(writeNode := if s.writeNode == n then n + 1 else s.writeNode), t, PushStart(item))
    case PushDone(n) => Go(s.(writeNode := if s.writeNode == n then n + 1 else s.writeNode), t, Idle)
    case PopStart(before) => Go(s, t, PopAt(s.readNode, before))
    case PopAt(n, before) => Go(s, t, PopWrite(n, s.nodes[n].writePos, before))
    case PopWrite(n, write, before) =>
      Go(s, t, if write <= s.nodes[n].readPos then PopCheck(n, write, before) else PopClaim(n, before))
    case PopCheck(n, write, before) => Go(s, t, if n + 1 < |s.nodes| then PopClaim(n, before) else PopFailed(before))
    case PopClaim(n, before) => TakeReadPos(s, t, n, before)
    case PopClaimed(n, pos, before) => GetValue(s, t, n, pos, before)
    case PopFull(n, before) => Go(s, t, if n + 1 < |s.nodes| then PopSwing(n, before) else PopFailed(before))
    case PopSwing(n, before) => Go(s.(readNode := if s.readNode == n then n + 1 else s.readNode), t, PopStart(before))
    case PopFailed(_) => Go(s, t, Idle)
  }

  /** The items that are in slots. */
  ghost function Stored(place: map<Item, Place>): set<Item> { set x | x in place && place[x].InSlot? }

  ghost function Do(s: State, a: Action): State
    requires Enabled(s, a)
  {
    match a
    case StartPush(t, item) => Go(PutPlace(s, item, Hand(t)), t, PushStart(item))
    case StartPop(t) => Go(s, t, PopStart(Stored(s.place)))
    case Step(t) => Stepping(s, t)
  }

  ghost predicate Next(s: State, s': State) {
    exists a :: Enabled(s, a) && s' == Do(s, a)
  }

  // ----- the invariant

  predicate Pushes(pc: Pc, item: Item) {
    (pc.PushStart? || pc.PushAt? || pc.PushClaimed? || pc.PushFull? || pc.PushNew? || pc.PushSwing?) && pc.item == item
  }

  predicate IsAt(place: map<Item, Place>, item: Item, p: Place) { item in place && place[item] == p }

  /** The thread has taken this position to pop it. */
  predicate Pops(threads: seq<Pc>, t: nat, n: nat, i: nat) {
    t < |threads| && threads[t].PopClaimed? && threads[t].node == n && threads[t].pos == i
  }

  predicate NodeOK(node: Node) {
    |node.slots| == SIZE && |node.pushers| == node.writePos && |node.poppers| == node.readPos
  }

  /** A slot holds what place says, below write_pos; below read_pos it is taken or about to be. */
  ghost predicate SlotOK(node: Node, n: nat, i: nat, threads: seq<Pc>, place: map<Item, Place>)
    requires NodeOK(node) && i < SIZE
  {
    match node.slots[i]
    case Taken => i < node.readPos
    case Empty => i < node.readPos ==> Pops(threads, node.poppers[i], n, i)
    case Value(item) =>
      && IsAt(place, item, InSlot(n, i)) && i < node.writePos
      && (i < node.readPos ==> Pops(threads, node.poppers[i], n, i))
  }

  /** Every item is where place says. */
  ghost predicate PlaceOK(nodes: seq<Node>, threads: seq<Pc>, popped: seq<Item>, item: Item, p: Place) {
    match p
    case Hand(t) => t < |threads| && Pushes(threads[t], item) && item !in popped
    case InSlot(n, i) => n < |nodes| && i < |nodes[n].slots| && nodes[n].slots[i] == Value(item) && item !in popped
    case Popped => item in popped
  }

  /** An item of before is popped or in a slot; those in block n are below the position. */
  ghost predicate BeforeOK(place: map<Item, Place>, before: set<Item>, n: nat, below: nat) {
    forall x :: x in before ==> BelowAt(place, x, n, below)
  }

  predicate BelowAt(place: map<Item, Place>, x: Item, n: nat, below: nat) {
    x in place && !place[x].Hand? && (place[x].InSlot? && place[x].node == n ==> place[x].pos < below)
  }

  /** An item of before is popped, or its position is taken. */
  ghost predicate Gone(nodes: seq<Node>, place: map<Item, Place>, before: set<Item>) {
    forall x :: x in before ==> GoneAt(nodes, place, x)
  }

  predicate GoneAt(nodes: seq<Node>, place: map<Item, Place>, x: Item) {
    && x in place && !place[x].Hand?
    && (place[x].InSlot? ==> place[x].node < |nodes| && place[x].pos < nodes[place[x].node].readPos)
  }

  ghost predicate PushOK(s: State, t: nat, pc: Pc) {
    match pc
    case PushAt(_, n) => n < |s.nodes|
    case PushClaimed(item, n, pos) =>
      && n < |s.nodes| && pos < SIZE && pos < |s.nodes[n].pushers| && pos < |s.nodes[n].slots|
      && s.nodes[n].pushers[pos] == t && !s.nodes[n].slots[pos].Value?
    case PushFull(_, n) => n < |s.nodes|
    case PushNew(_, n) => n < |s.nodes|
    case PushSwing(_, n) => n + 1 < |s.nodes|
    case PushDone(n) => n + 1 < |s.nodes|
    case _ => true
  }

  ghost predicate PopOK(s: State, t: nat, pc: Pc) {
    match pc
    case PopStart(before) => BeforeOK(s.place, before, 0, SIZE)
    case PopAt(n, before) => n <= s.readNode && BeforeOK(s.place, before, n, SIZE)
    case PopWrite(n, write, before) => n <= s.readNode && BeforeOK(s.place, before, n, write)
    case PopCheck(n, write, before) =>
      n <= s.readNode < |s.nodes| && BeforeOK(s.place, before, n, write) && write <= s.nodes[n].readPos
    case PopClaim(n, before) => n <= s.readNode && BeforeOK(s.place, before, n, SIZE)
    case PopClaimed(n, pos, before) =>
      && n <= s.readNode < |s.nodes| && BeforeOK(s.place, before, n, SIZE)
      && pos < SIZE && pos < |s.nodes[n].poppers| && pos < |s.nodes[n].slots|
      && s.nodes[n].poppers[pos] == t && s.nodes[n].slots[pos] != Taken
    case PopFull(n, before) => n <= s.readNode < |s.nodes| && BeforeOK(s.place, before, n, SIZE) && SIZE <= s.nodes[n].readPos
    case PopSwing(n, before) =>
      n <= s.readNode && n + 1 < |s.nodes| && BeforeOK(s.place, before, n, SIZE) && SIZE <= s.nodes[n].readPos
    case PopFailed(before) => Gone(s.nodes, s.place, before)
    case _ => true
  }

  ghost predicate ThreadOK(s: State, t: nat, pc: Pc) {
    && (forall item :: Pushes(pc, item) ==> IsAt(s.place, item, Hand(t)))
    && PushOK(s, t, pc) && PopOK(s, t, pc)
  }

  ghost predicate NodeAt(s: State, n: nat)
    requires n < |s.nodes|
  {
    NodeOK(s.nodes[n]) && (n < s.readNode ==> SIZE <= s.nodes[n].readPos)
  }

  ghost predicate SlotAt(s: State, n: nat, i: nat)
    requires n < |s.nodes| && i < SIZE
  {
    NodeOK(s.nodes[n]) && SlotOK(s.nodes[n], n, i, s.threads, s.place)
  }

  ghost predicate ItemAt(s: State, item: Item) {
    item in s.place ==> PlaceOK(s.nodes, s.threads, s.popped, item, s.place[item])
  }

  ghost predicate ThreadAt(s: State, t: nat)
    requires t < |s.threads|
  {
    ThreadOK(s, t, s.threads[t])
  }

  ghost predicate Distinct(xs: seq<Item>) { forall i, j :: 0 <= i < j < |xs| ==> xs[i] != xs[j] }

  ghost predicate Inv(s: State) {
    && s.writeNode < |s.nodes| && s.readNode < |s.nodes|
    && (forall n :: 0 <= n < |s.nodes| ==> NodeAt(s, n))
    && (forall n, i :: 0 <= n < |s.nodes| && 0 <= i < SIZE ==> SlotAt(s, n, i))
    && (forall item :: ItemAt(s, item))
    && (forall t :: 0 <= t < |s.threads| ==> ThreadAt(s, t))
    && Distinct(s.popped) && forall x :: x in s.popped ==> x in s.place
  }

  lemma InitInv(s: State)
    requires Init(s)
    ensures Inv(s)
  {
  }

  // ----- what a thread does not notice

  ghost predicate NodeGrows(a: Node, b: Node) {
    && |b.slots| == |a.slots| && a.pushers <= b.pushers && a.poppers <= b.poppers && a.readPos <= b.readPos
  }

  ghost predicate NodeGrowsAt(s: State, s': State, n: nat)
    requires n < |s.nodes| <= |s'.nodes|
  {
    NodeGrows(s.nodes[n], s'.nodes[n])
  }

  /** A stored item stays where it is, or is popped. */
  predicate StaysAt(place: map<Item, Place>, place': map<Item, Place>, x: Item) {
    x in place && !place[x].Hand? ==> x in place' && (place'[x] == place[x] || place'[x] == Popped)
  }

  ghost predicate Grows(s: State, s': State) {
    && |s.nodes| <= |s'.nodes| && s.readNode <= s'.readNode < |s'.nodes|
    && (forall n :: 0 <= n < |s.nodes| ==> NodeGrowsAt(s, s', n))
    && forall x :: StaysAt(s.place, s'.place, x)
  }

  lemma BeforeStays(s: State, s': State, before: set<Item>, n: nat, below: nat)
    requires Grows(s, s') && BeforeOK(s.place, before, n, below)
    ensures BeforeOK(s'.place, before, n, below)
  {
    forall x | x in before ensures BelowAt(s'.place, x, n, below) {
      assert BelowAt(s.place, x, n, below) && StaysAt(s.place, s'.place, x);
    }
  }

  lemma GoneStays(s: State, s': State, before: set<Item>)
    requires Grows(s, s') && Gone(s.nodes, s.place, before)
    ensures Gone(s'.nodes, s'.place, before)
  {
    forall x | x in before ensures GoneAt(s'.nodes, s'.place, x) {
      assert GoneAt(s.nodes, s.place, x) && StaysAt(s.place, s'.place, x);
      if s.place[x].InSlot? { assert NodeGrowsAt(s, s', s.place[x].node); }
    }
  }

  lemma PushStays(s: State, s': State, t: nat, pc: Pc)
    requires Grows(s, s') && PushOK(s, t, pc)
    requires pc.PushClaimed? ==> pc.node < |s'.nodes| && pc.pos < |s'.nodes[pc.node].slots| && !s'.nodes[pc.node].slots[pc.pos].Value?
    ensures PushOK(s', t, pc)
  {
    if pc.PushClaimed? { assert NodeGrowsAt(s, s', pc.node); }
  }

  lemma PopStays(s: State, s': State, t: nat, pc: Pc)
    requires Grows(s, s') && PopOK(s, t, pc) && s.readNode < |s.nodes|
    requires pc.PopClaimed? ==> pc.node < |s'.nodes| && pc.pos < |s'.nodes[pc.node].slots| && s'.nodes[pc.node].slots[pc.pos] != Taken
    ensures PopOK(s', t, pc)
  {
    match pc
    case PopStart(before) => BeforeStays(s, s', before, 0, SIZE);
    case PopAt(n, before) => BeforeStays(s, s', before, n, SIZE);
    case PopWrite(n, write, before) => BeforeStays(s, s', before, n, write);
    case PopCheck(n, write, before) => BeforeStays(s, s', before, n, write); assert NodeGrowsAt(s, s', n);
    case PopClaim(n, before) => BeforeStays(s, s', before, n, SIZE);
    case PopClaimed(n, pos, before) => BeforeStays(s, s', before, n, SIZE); assert NodeGrowsAt(s, s', n);
    case PopFull(n, before) => BeforeStays(s, s', before, n, SIZE); assert NodeGrowsAt(s, s', n);
    case PopSwing(n, before) => BeforeStays(s, s', before, n, SIZE); assert NodeGrowsAt(s, s', n);
    case PopFailed(before) => GoneStays(s, s', before);
    case _ =>
  }

  lemma ThreadStays(s: State, s': State, t: nat, pc: Pc)
    requires Grows(s, s') && ThreadOK(s, t, pc) && s.readNode < |s.nodes|
    requires forall x :: Pushes(pc, x) ==> IsAt(s'.place, x, Hand(t))
    requires pc.PushClaimed? ==> pc.node < |s'.nodes| && pc.pos < |s'.nodes[pc.node].slots| && !s'.nodes[pc.node].slots[pc.pos].Value?
    requires pc.PopClaimed? ==> pc.node < |s'.nodes| && pc.pos < |s'.nodes[pc.node].slots| && s'.nodes[pc.node].slots[pc.pos] != Taken
    ensures ThreadOK(s', t, pc)
  {
    PushStays(s, s', t, pc);
    PopStays(s, s', t, pc);
  }

  lemma SlotStays(node: Node, n: nat, i: nat, threads: seq<Pc>, place: map<Item, Place>, node': Node, threads': seq<Pc>, place': map<Item, Place>)
    requires NodeOK(node) && NodeOK(node') && i < SIZE && SlotOK(node, n, i, threads, place)
    requires node'.slots[i] == node.slots[i] && node.poppers <= node'.poppers && node.writePos <= node'.writePos
    requires i >= node.readPos ==> i >= node'.readPos
    requires i < node.readPos && node.slots[i] != Taken && Pops(threads, node.poppers[i], n, i)
      ==> Pops(threads', node.poppers[i], n, i)
    requires node.slots[i].Value? && IsAt(place, node.slots[i].item, InSlot(n, i)) ==> IsAt(place', node.slots[i].item, InSlot(n, i))
    ensures SlotOK(node', n, i, threads', place')
  {
  }

  // ----- steps that change only the thread

  lemma {:induction false} QuietInv(s: State, t: nat, pc: Pc)
    requires Inv(s) && t < |s.threads| && !s.threads[t].PopClaimed?
    requires forall x :: Pushes(pc, x) == Pushes(s.threads[t], x)
    requires ThreadOK(s, t, pc)
    ensures Inv(Go(s, t, pc))
  {
    var s' := Go(s, t, pc);
    forall n | 0 <= n < |s'.nodes| ensures NodeAt(s', n) { assert NodeAt(s, n); }
    forall n, i | 0 <= n < |s'.nodes| && 0 <= i < SIZE ensures SlotAt(s', n, i) {
      assert SlotAt(s, n, i);
      SlotStays(s.nodes[n], n, i, s.threads, s.place, s.nodes[n], s'.threads, s.place);
    }
    forall x ensures ItemAt(s', x) { assert ItemAt(s, x); }
    forall u | 0 <= u < |s'.threads| ensures ThreadAt(s', u) {
      if u == t { QuietThread(s, s', t, pc); } else { assert ThreadAt(s, u); QuietThread(s, s', u, s.threads[u]); }
    }
  }

  lemma QuietThread(s: State, s': State, t: nat, pc: Pc)
    requires ThreadOK(s, t, pc) && s'.nodes == s.nodes && s'.place == s.place && s'.readNode == s.readNode
    ensures ThreadOK(s', t, pc)
  {
  }

  lemma WriteNodeInv(s: State, m: nat)
    requires Inv(s) && m < |s.nodes|
    ensures Inv(s.(writeNode := m))
  {
    var s' := s.(writeNode := m);
    forall n | 0 <= n < |s'.nodes| ensures NodeAt(s', n) { assert NodeAt(s, n); }
    forall n, i | 0 <= n < |s'.nodes| && 0 <= i < SIZE ensures SlotAt(s', n, i) { assert SlotAt(s, n, i); }
    forall x ensures ItemAt(s', x) { assert ItemAt(s, x); }
    forall u | 0 <= u < |s'.threads| ensures ThreadAt(s', u) { assert ThreadAt(s, u); QuietThread(s, s', u, s.threads[u]); }
  }

  lemma ReadNodeInv(s: State)
    requires Inv(s) && s.readNode + 1 < |s.nodes| && SIZE <= s.nodes[s.readNode].readPos
    ensures Inv(s.(readNode := s.readNode + 1))
  {
    var s' := s.(readNode := s.readNode + 1);
    forall n | 0 <= n < |s'.nodes| ensures NodeAt(s', n) { assert NodeAt(s, n); }
    forall n, i | 0 <= n < |s'.nodes| && 0 <= i < SIZE ensures SlotAt(s', n, i) { assert SlotAt(s, n, i); }
    forall x ensures ItemAt(s', x) { assert ItemAt(s, x); }
    forall n | 0 <= n < |s.nodes| ensures NodeGrowsAt(s, s', n) {}
    assert Grows(s, s');
    forall u | 0 <= u < |s'.threads| ensures ThreadAt(s', u) { assert ThreadAt(s, u); ThreadStays(s, s', u, s.threads[u]); }
  }

  // ----- positions

  /** One more position for writers. */
  lemma WritePosInv(s: State, n: nat, t: nat, node': Node)
    requires Inv(s) && n < |s.nodes|
    requires var node := s.nodes[n]; node' == node.(writePos := node.writePos + 1, pushers := node.pushers + [t])
    ensures Inv(PutNode(s, n, node'))
  {
    var s' := PutNode(s, n, node');
    assert NodeAt(s, n);
    forall m | 0 <= m < |s'.nodes| ensures NodeAt(s', m) { assert NodeAt(s, m); }
    forall m, i | 0 <= m < |s'.nodes| && 0 <= i < SIZE ensures SlotAt(s', m, i) {
      assert SlotAt(s, m, i);
      SlotStays(s.nodes[m], m, i, s.threads, s.place, s'.nodes[m], s.threads, s.place);
    }
    forall x ensures ItemAt(s', x) { assert ItemAt(s, x); }
    forall m | 0 <= m < |s.nodes| ensures NodeGrowsAt(s, s', m) {}
    assert Grows(s, s');
    forall u | 0 <= u < |s'.threads| ensures ThreadAt(s', u) { assert ThreadAt(s, u); ThreadStays(s, s', u, s.threads[u]); }
  }

  lemma TakeWritePosInv(s: State, t: nat)
    requires Inv(s) && t < |s.threads| && s.threads[t].PushAt? && s.threads[t].node < |s.nodes|
    ensures Inv(TakeWritePos(s, t, s.threads[t].item, s.threads[t].node))
  {
    var item, n := s.threads[t].item, s.threads[t].node;
    var node := s.nodes[n];
    var node' := node.(writePos := node.writePos + 1, pushers := node.pushers + [t]);
    var s1 := PutNode(s, n, node');
    assert NodeAt(s, n) && ThreadAt(s, t);
    WritePosInv(s, n, t, node');
    assert ThreadAt(s1, t);
    var pos := node.writePos;
    if pos < SIZE { assert SlotAt(s, n, pos); }
    var pc := if pos >= SIZE then PushFull(item, n) else PushClaimed(item, n, pos);
    QuietInv(s1, t, pc);
  }

  /** One more position for readers: the slot waits for the thread. */
  lemma TakeReadPosInv(s: State, t: nat)
    requires Inv(s) && t < |s.threads| && s.threads[t].PopClaim? && s.threads[t].node < |s.nodes|
    ensures Inv(TakeReadPos(s, t, s.threads[t].node, s.threads[t].before))
  {
    var n, before := s.threads[t].node, s.threads[t].before;
    var s' := TakeReadPos(s, t, n, before);
    var node := s.nodes[n];
    var pos := node.readPos;
    assert NodeAt(s, n) && ThreadAt(s, t);
    forall m | 0 <= m < |s'.nodes| ensures NodeAt(s', m) { assert NodeAt(s, m); }
    forall m, i | 0 <= m < |s'.nodes| && 0 <= i < SIZE ensures SlotAt(s', m, i) {
      assert SlotAt(s, m, i) && NodeAt(s, m);
      if m != n || i != pos { SlotStays(s.nodes[m], m, i, s.threads, s.place, s'.nodes[m], s'.threads, s.place); }
    }
    forall x ensures ItemAt(s', x) { assert ItemAt(s, x); }
    forall m | 0 <= m < |s.nodes| ensures NodeGrowsAt(s, s', m) {}
    assert Grows(s, s');
    forall u | 0 <= u < |s'.threads| ensures ThreadAt(s', u) {
      assert ThreadAt(s, u);
      if u != t { ThreadStays(s, s', u, s.threads[u]); } else {
        BeforeStays(s, s', before, n, SIZE);
        if pos < SIZE { assert SlotAt(s, n, pos); }
      }
    }
  }

  // ----- values

  lemma SetValueInv(s: State, t: nat)
    requires Inv(s) && t < |s.threads| && s.threads[t].PushClaimed? && s.threads[t].node < |s.nodes|
    requires s.threads[t].pos < |s.nodes[s.threads[t].node].slots|
    ensures Inv(SetValue(s, t, s.threads[t].item, s.threads[t].node, s.threads[t].pos))
  {
    var item, n, pos := s.threads[t].item, s.threads[t].node, s.threads[t].pos;
    assert ThreadAt(s, t) && NodeAt(s, n) && Pushes(s.threads[t], item);
    if s.nodes[n].slots[pos] == Empty {
      var s' := SetValue(s, t, item, n, pos);
      assert ItemAt(s, item);
      forall m | 0 <= m < |s'.nodes| ensures NodeAt(s', m) { assert NodeAt(s, m); }
      forall m, i | 0 <= m < |s'.nodes| && 0 <= i < SIZE ensures SlotAt(s', m, i) {
        assert SlotAt(s, m, i) && NodeAt(s, m);
        if m != n || i != pos { SlotStays(s.nodes[m], m, i, s.threads, s.place, s'.nodes[m], s'.threads, s'.place); }
      }
      StoredItems(s, s', t, item, n, pos);
      forall m | 0 <= m < |s.nodes| ensures NodeGrowsAt(s, s', m) {}
      assert Grows(s, s');
      forall u | 0 <= u < |s'.threads| ensures ThreadAt(s', u) {
        assert ThreadAt(s, u);
        if u != t { StoredThread(s, s', t, item, n, pos, u); }
      }
    } else {
      QuietInv(s, t, PushStart(item));
    }
  }

  lemma StoredItems(s: State, s': State, t: nat, item: Item, n: nat, pos: nat)
    requires Inv(s) && t < |s.threads| && n < |s.nodes| && pos < |s.nodes[n].slots|
    requires s.threads[t] == PushClaimed(item, n, pos) && s.nodes[n].slots[pos] == Empty && s' == SetValue(s, t, item, n, pos)
    ensures forall x :: ItemAt(s', x)
  {
    assert ThreadAt(s, t) && Pushes(s.threads[t], item) && ItemAt(s, item);
    forall x ensures ItemAt(s', x) {
      assert ItemAt(s, x);
    }
  }

  lemma StoredThread(s: State, s': State, t: nat, item: Item, n: nat, pos: nat, u: nat)
    requires Inv(s) && t < |s.threads| && n < |s.nodes| && pos < |s.nodes[n].slots|
    requires s.threads[t] == PushClaimed(item, n, pos) && s.nodes[n].slots[pos] == Empty && s' == SetValue(s, t, item, n, pos)
    requires Grows(s, s') && u < |s.threads| && u != t
    ensures ThreadOK(s', u, s.threads[u])
  {
    assert ThreadAt(s, t) && ThreadAt(s, u) && Pushes(s.threads[t], item);
    forall x | Pushes(s.threads[u], x) ensures IsAt(s'.place, x, Hand(u)) {
      assert IsAt(s.place, x, Hand(u));
    }
    ThreadStays(s, s', u, s.threads[u]);
  }

  lemma LinkNodeInv(s: State, t: nat)
    requires Inv(s) && t < |s.threads| && s.threads[t].PushNew?
    ensures Inv(LinkNode(s, t, s.threads[t].item, s.threads[t].node))
  {
    var item, n := s.threads[t].item, s.threads[t].node;
    assert ThreadAt(s, t) && Pushes(s.threads[t], item) && ItemAt(s, item);
    if n + 1 < |s.nodes| {
      QuietInv(s, t, PushStart(item));
    } else {
      var s' := LinkNode(s, t, item, n);
      forall m | 0 <= m < |s'.nodes| ensures NodeAt(s', m) { if m < |s.nodes| { assert NodeAt(s, m); } }
      forall m, i | 0 <= m < |s'.nodes| && 0 <= i < SIZE ensures SlotAt(s', m, i) {
        if m < |s.nodes| {
          assert SlotAt(s, m, i);
          SlotStays(s.nodes[m], m, i, s.threads, s.place, s'.nodes[m], s'.threads, s'.place);
        }
      }
      forall x ensures ItemAt(s', x) { assert ItemAt(s, x); }
      forall m | 0 <= m < |s.nodes| ensures NodeGrowsAt(s, s', m) {}
      assert Grows(s, s');
      forall u | 0 <= u < |s'.threads| ensures ThreadAt(s', u) {
        assert ThreadAt(s, u);
        if u != t {
          forall x | Pushes(s.threads[u], x) ensures IsAt(s'.place, x, Hand(u)) { assert IsAt(s.place, x, Hand(u)); }
          ThreadStays(s, s', u, s.threads[u]);
        }
      }
    }
  }

  lemma OneMorePopped(popped: seq<Item>, item: Item, popped': seq<Item>)
    requires Distinct(popped) && item !in popped && popped' == popped + [item]
    ensures Distinct(popped') && forall x :: x in popped' <==> x in popped || x == item
  {
  }

  lemma GetValueInv(s: State, t: nat)
    requires Inv(s) && t < |s.threads| && s.threads[t].PopClaimed? && s.threads[t].node < |s.nodes|
    requires s.threads[t].pos < |s.nodes[s.threads[t].node].slots|
    ensures Inv(GetValue(s, t, s.threads[t].node, s.threads[t].pos, s.threads[t].before))
  {
    var n, pos, before := s.threads[t].node, s.threads[t].pos, s.threads[t].before;
    var s' := GetValue(s, t, n, pos, before);
    assert ThreadAt(s, t) && NodeAt(s, n) && SlotAt(s, n, pos);
    if s.nodes[n].slots[pos].Value? {
      var item := s.nodes[n].slots[pos].item;
      assert ItemAt(s, item);
      OneMorePopped(s.popped, item, s'.popped);
    }
    forall m | 0 <= m < |s'.nodes| ensures NodeAt(s', m) { assert NodeAt(s, m); }
    forall m, i | 0 <= m < |s'.nodes| && 0 <= i < SIZE ensures SlotAt(s', m, i) { TakenSlot(s, s', t, m, i); }
    forall x ensures ItemAt(s', x) { assert ItemAt(s, x); }
    forall m | 0 <= m < |s.nodes| ensures NodeGrowsAt(s, s', m) {}
    assert Grows(s, s');
    forall u | 0 <= u < |s'.threads| ensures ThreadAt(s', u) {
      if u != t { TakenThread(s, s', t, u); } else {
        BeforeStays(s, s', before, n, SIZE);
        BeforeAny(s', before, n, 0);
      }
    }
  }

  lemma TakenSlot(s: State, s': State, t: nat, m: nat, i: nat)
    requires Inv(s) && t < |s.threads| && s.threads[t].PopClaimed? && s.threads[t].node < |s.nodes|
    requires s.threads[t].pos < |s.nodes[s.threads[t].node].slots| && m < |s.nodes| && i < SIZE
    requires s' == GetValue(s, t, s.threads[t].node, s.threads[t].pos, s.threads[t].before)
    ensures SlotAt(s', m, i)
  {
    var n, pos := s.threads[t].node, s.threads[t].pos;
    assert ThreadAt(s, t) && SlotAt(s, n, pos) && SlotAt(s, m, i) && NodeAt(s, m);
    if m != n || i != pos { SlotStays(s.nodes[m], m, i, s.threads, s.place, s'.nodes[m], s'.threads, s'.place); }
  }

  lemma TakenThread(s: State, s': State, t: nat, u: nat)
    requires Inv(s) && t < |s.threads| && s.threads[t].PopClaimed? && s.threads[t].node < |s.nodes|
    requires s.threads[t].pos < |s.nodes[s.threads[t].node].slots| && u < |s.threads| && u != t
    requires s' == GetValue(s, t, s.threads[t].node, s.threads[t].pos, s.threads[t].before) && Grows(s, s')
    ensures ThreadOK(s', u, s.threads[u])
  {
    assert ThreadAt(s, t) && ThreadAt(s, u) && SlotAt(s, s.threads[t].node, s.threads[t].pos);
    forall x | Pushes(s.threads[u], x) ensures IsAt(s'.place, x, Hand(u)) { assert IsAt(s.place, x, Hand(u)); }
    ThreadStays(s, s', u, s.threads[u]);
  }

  /** Every position is below the size of its block. */
  lemma BeforeAny(s: State, before: set<Item>, m: nat, n: nat)
    requires (forall x :: ItemAt(s, x)) && (forall k :: 0 <= k < |s.nodes| ==> NodeAt(s, k))
    requires BeforeOK(s.place, before, m, SIZE)
    ensures BeforeOK(s.place, before, n, SIZE)
  {
    forall x | x in before ensures BelowAt(s.place, x, n, SIZE) {
      assert BelowAt(s.place, x, m, SIZE) && ItemAt(s, x);
      if s.place[x].InSlot? { assert NodeAt(s, s.place[x].node); }
    }
  }

  // ----- the other steps

  lemma StartPushInv(s: State, t: nat, item: Item)
    requires Inv(s) && Enabled(s, StartPush(t, item))
    ensures Inv(Do(s, StartPush(t, item)))
  {
    var s' := Do(s, StartPush(t, item));
    forall n | 0 <= n < |s'.nodes| ensures NodeAt(s', n) { assert NodeAt(s, n); }
    forall n, i | 0 <= n < |s'.nodes| && 0 <= i < SIZE ensures SlotAt(s', n, i) {
      assert SlotAt(s, n, i);
      SlotStays(s.nodes[n], n, i, s.threads, s.place, s.nodes[n], s'.threads, s'.place);
    }
    forall x ensures ItemAt(s', x) { assert ItemAt(s, x); }
    forall n | 0 <= n < |s.nodes| ensures NodeGrowsAt(s, s', n) {}
    assert Grows(s, s');
    forall u | 0 <= u < |s'.threads| ensures ThreadAt(s', u) {
      assert ThreadAt(s, u);
      if u != t {
        forall x | Pushes(s.threads[u], x) ensures IsAt(s'.place, x, Hand(u)) { assert IsAt(s.place, x, Hand(u)); }
        ThreadStays(s, s', u, s.threads[u]);
      }
    }
  }

  lemma StartPopInv(s: State, t: nat)
    requires Inv(s) && Enabled(s, StartPop(t))
    ensures Inv(Do(s, StartPop(t)))
  {
    var before := Stored(s.place);
    forall x | x in before ensures BelowAt(s.place, x, 0, SIZE) {
      assert ItemAt(s, x);
      assert NodeAt(s, s.place[x].node);
    }
    QuietInv(s, t, PopStart(before));
  }

  /** The position that was loaded is above every item stored before the call. */
  lemma WriteLoaded(s: State, before: set<Item>, n: nat)
    requires Inv(s) && n < |s.nodes| && BeforeOK(s.place, before, n, SIZE)
    ensures BeforeOK(s.place, before, n, s.nodes[n].writePos)
  {
    forall x | x in before ensures BelowAt(s.place, x, n, s.nodes[n].writePos) {
      assert BelowAt(s.place, x, n, SIZE) && ItemAt(s, x);
      if s.place[x].InSlot? && s.place[x].node == n { assert SlotAt(s, n, s.place[x].pos); }
    }
  }

  /** At the end of the chain, with every position below taken, nothing that was stored is left. */
  lemma NothingLeft(s: State, before: set<Item>, n: nat, below: nat)
    requires Inv(s) && n <= s.readNode && n + 1 == |s.nodes| && below <= s.nodes[n].readPos
    requires BeforeOK(s.place, before, n, below)
    ensures Gone(s.nodes, s.place, before)
  {
    forall x | x in before ensures GoneAt(s.nodes, s.place, x) {
      assert BelowAt(s.place, x, n, below) && ItemAt(s, x);
      if s.place[x].InSlot? { assert NodeAt(s, s.place[x].node); }
    }
  }

  lemma PopStepInv(s: State, t: nat)
    requires Inv(s) && Enabled(s, Step(t))
    requires var pc := s.threads[t]; pc.PopStart? || pc.PopAt? || pc.PopWrite? || pc.PopCheck? || pc.PopFull? || pc.PopFailed?
    ensures Inv(Stepping(s, t))
  {
    assert ThreadAt(s, t);
    match s.threads[t]
    case PopStart(before) =>
      BeforeAny(s, before, 0, s.readNode);
      QuietInv(s, t, PopAt(s.readNode, before));
    case PopAt(n, before) =>
      WriteLoaded(s, before, n);
      QuietInv(s, t, PopWrite(n, s.nodes[n].writePos, before));
    case PopWrite(n, write, before) =>
      BelowSize(s, before, n, write);
      QuietInv(s, t, if write <= s.nodes[n].readPos then PopCheck(n, write, before) else PopClaim(n, before));
    case PopCheck(n, write, before) =>
      BelowSize(s, before, n, write);
      if n + 1 >= |s.nodes| { NothingLeft(s, before, n, write); }
      QuietInv(s, t, if n + 1 < |s.nodes| then PopClaim(n, before) else PopFailed(before));
    case PopFull(n, before) =>
      if n + 1 >= |s.nodes| { NothingLeft(s, before, n, SIZE); }
      QuietInv(s, t, if n + 1 < |s.nodes| then PopSwing(n, before) else PopFailed(before));
    case PopFailed(before) => QuietInv(s, t, Idle);
  }

  lemma BelowSize(s: State, before: set<Item>, n: nat, write: nat)
    requires Inv(s) && BeforeOK(s.place, before, n, write)
    ensures BeforeOK(s.place, before, n, SIZE)
  {
    forall x | x in before ensures BelowAt(s.place, x, n, SIZE) {
      assert BelowAt(s.place, x, n, write) && ItemAt(s, x);
      if s.place[x].InSlot? { assert NodeAt(s, s.place[x].node); }
    }
  }

  lemma PopSwingInv(s: State, t: nat)
    requires Inv(s) && Enabled(s, Step(t)) && s.threads[t].PopSwing?
    ensures Inv(Stepping(s, t))
  {
    var n, before := s.threads[t].node, s.threads[t].before;
    assert ThreadAt(s, t);
    BeforeAny(s, before, n, 0);
    QuietInv(s, t, PopStart(before));
    var s1 := Go(s, t, PopStart(before));
    if s.readNode == n {
      ReadNodeInv(s1);
      assert Stepping(s, t) == s1.(readNode := n + 1);
    } else {
      assert Stepping(s, t) == s1;
    }
  }

  lemma PushStepInv(s: State, t: nat)
    requires Inv(s) && Enabled(s, Step(t))
    requires var pc := s.threads[t]; pc.PushStart? || pc.PushFull? || pc.PushSwing? || pc.PushDone?
    ensures Inv(Stepping(s, t))
  {
    assert ThreadAt(s, t);
    match s.threads[t]
    case PushStart(item) => QuietInv(s, t, PushAt(item, s.writeNode));
    case PushFull(item, n) => QuietInv(s, t, if n + 1 < |s.nodes| then PushSwing(item, n) else PushNew(item, n));
    case PushSwing(item, n) =>
      QuietInv(s, t, PushStart(item));
      WriteNodeInv(Go(s, t, PushStart(item)), if s.writeNode == n then n + 1 else s.writeNode);
    case PushDone(n) =>
      QuietInv(s, t, Idle);
      WriteNodeInv(Go(s, t, Idle), if s.writeNode == n then n + 1 else s.writeNode);
  }

  lemma DoInv(s: State, a: Action)
    requires Inv(s) && Enabled(s, a)
    ensures Inv(Do(s, a))
  {
    match a
    case StartPush(t, item) => StartPushInv(s, t, item);
    case StartPop(t) => StartPopInv(s, t);
    case Step(t) =>
      match s.threads[t]
      case PushAt(_, _) => TakeWritePosInv(s, t);
      case PushClaimed(_, _, _) => SetValueInv(s, t);
      case PushNew(_, _) => LinkNodeInv(s, t);
      case PopClaim(_, _) => TakeReadPosInv(s, t);
      case PopClaimed(_, _, _) => GetValueInv(s, t);
      case PopSwing(_, _) => PopSwingInv(s, t);
      case PushStart(_) => PushStepInv(s, t);
      case PushFull(_, _) => PushStepInv(s, t);
      case PushSwing(_, _) => PushStepInv(s, t);
      case PushDone(_) => PushStepInv(s, t);
      case _ => PopStepInv(s, t);
  }

  lemma StepInv(s: State, s': State)
    requires Inv(s) && Next(s, s')
    ensures Inv(s')
  {
    var a :| Enabled(s, a) && s' == Do(s, a);
    DoInv(s, a);
  }

  /** No thread ever stands outside the chain or a block. */
  lemma NeverStuck(s: State, t: nat)
    requires Inv(s) && t < |s.threads| && s.threads[t] != Idle
    ensures Enabled(s, Step(t))
  {
    assert ThreadAt(s, t);
  }

  // ----- runs

  ghost predicate StepAt(run: seq<State>, i: nat)
    requires i + 1 < |run|
  {
    Next(run[i], run[i + 1])
  }

  ghost predicate IsRun(run: seq<State>) {
    run != [] && Init(run[0]) && forall i :: 0 <= i < |run| - 1 ==> StepAt(run, i)
  }

  lemma {:induction false} RunInv(run: seq<State>, i: nat)
    requires IsRun(run) && i < |run|
    ensures Inv(run[i])
  {
    if i == 0 {
      InitInv(run[0]);
    } else {
      RunInv(run, i - 1);
      assert StepAt(run, i - 1);
      StepInv(run[i - 1], run[i]);
    }
  }

  ghost predicate InHand(s: State, x: Item, t: nat) { t < |s.threads| && Pushes(s.threads[t], x) }

  ghost predicate InSlotOf(s: State, x: Item, n: nat, i: nat) {
    n < |s.nodes| && i < |s.nodes[n].slots| && s.nodes[n].slots[i] == Value(x)
  }

  /** Every pushed item is in exactly one hand or slot, or was returned, once. */
  lemma ExactlyOnce(run: seq<State>, k: nat, x: Item)
    requires IsRun(run) && k < |run| && x in run[k].place
    ensures var s := run[k];
      && (forall t :: InHand(s, x, t) <==> s.place[x] == Hand(t))
      && (forall n, i :: InSlotOf(s, x, n, i) <==> s.place[x] == InSlot(n, i))
      && (x in s.popped <==> s.place[x] == Popped)
      && Distinct(s.popped)
  {
    RunInv(run, k);
    var s := run[k];
    assert ItemAt(s, x);
    forall t | InHand(s, x, t) ensures s.place[x] == Hand(t) { assert ThreadAt(s, t); }
    forall n, i | InSlotOf(s, x, n, i) ensures s.place[x] == InSlot(n, i) { assert NodeAt(s, n) && SlotAt(s, n, i); }
  }

  /** A stored item is ahead of the readers, or a thread has taken its position and returns it next. */
  lemma NothingStranded(run: seq<State>, k: nat, x: Item)
    requires IsRun(run) && k < |run| && x in run[k].place && run[k].place[x].InSlot?
    ensures var s, n, i := run[k], run[k].place[x].node, run[k].place[x].pos;
      && n < |s.nodes|
      && ((n >= s.readNode && i >= s.nodes[n].readPos)
          || exists t: nat :: t < |s.threads| && Pops(s.threads, t, n, i) && Enabled(s, Step(t)) && Do(s, Step(t)).popped == s.popped + [x])
  {
    RunInv(run, k);
    var s, n, i := run[k], run[k].place[x].node, run[k].place[x].pos;
    assert ItemAt(s, x) && NodeAt(s, n) && SlotAt(s, n, i);
    if i < s.nodes[n].readPos {
      var t := s.nodes[n].poppers[i];
      assert Pops(s.threads, t, n, i);
      assert Do(s, Step(t)).popped == s.popped + [x];
    }
  }

  /** try_pop returns false only when all that was stored before the call is popped or about to be returned. */
  lemma FalseMeansTaken(run: seq<State>, k: nat, t: nat, x: Item)
    requires IsRun(run) && k < |run| && t < |run[k].threads| && run[k].threads[t].PopFailed? && x in run[k].threads[t].before
    ensures var s := run[k];
      && x in s.place
      && (x in s.popped || exists u, n, i :: s.place[x] == InSlot(n, i) && Pops(s.threads, u, n, i))
  {
    RunInv(run, k);
    var s := run[k];
    assert ThreadAt(s, t) && GoneAt(s.nodes, s.place, x) && ItemAt(s, x);
    if s.place[x].InSlot? {
      var n, i := s.place[x].node, s.place[x].pos;
      assert NodeAt(s, n) && SlotAt(s, n, i);
      assert Pops(s.threads, s.nodes[n].poppers[i], n, i);
    }
  }
}
