/**
 * The concurrent hash map of pxcutils/pxc/utils/ConcurrentHashTable.h, whose threads move
 * all entries to a table of twice the size together when one of them finds no room.
 * One step per atomic access or locked region, any number of threads.
 *
 * The theorem: once an insert of a key has returned a value, every insert or find of that
 * key that starts later returns the same value, across any number of migrations.
 */
module ConcurrentHashMap {
  type Key = nat
  type Value = nat

  const EMPTY_KEY: Key := 0
  const EMPTY_VALUE: Value := 0
  const MIGRATE_VALUE: Value := 1
  const CHUNK_SIZE: nat := 100

  // ----- one table

  datatype Slot = Slot(key: Key, value: Value)

  type Table = seq<Slot>

  function Min(a: nat, b: nat): nat { if a < b then a else b }

  function Max(a: nat, b: nat): nat { if a < b then b else a }

  /** How many slots a probe of a table of this size visits. */
  function ProbeLimit(size: nat): (n: nat)
    ensures n <= size
  {
    Min(Max(300, size / 16 + 2), size)
  }

  /** The i-th slot of the probe sequence of k. */
  function ProbeSlot(k: Key, size: nat, i: nat): (p: nat)
    requires size > 0
    ensures p < size
  {
    (k % size + 1 + i) % size
  }

  // ----- state

  datatype Option<T> = None | Some(value: T)

  datatype Op = Insert(key: Key, arg: Value) | Find(key: Key, arg: Value)

  datatype Pc =
    | Idle
    | Protect                                       // about to load the table pointer
    | Probe(table: nat, i: nat)                     // with_value: about to load the i-th key
    | Claim(table: nat, i: nat)                     // saw an empty key: about to swap in ours
    | Found(table: nat, p: nat)                     // at the key's slot: about to access the value
    | WantMigrate(ptr: Option<nat>)                 // do_migrate(ptr), before its first locked region
    | GrabTask(gen: nat)                            // run_migrate: about to take a chunk
    | Seal(gen: nat, i: nat, end: nat)              // run_task: about to seal slot i
    | MoveProbe(gen: nat, i: nat, end: nat, k: Key, v: Value, j: nat)
    | MoveClaim(gen: nat, i: nat, end: nat, k: Key, v: Value, j: nat)
    | MoveStore(gen: nat, i: nat, end: nat, k: Key, v: Value, p: nat)
    | Leave(gen: nat)                               // before the second locked region
    | Await(gen: nat)                               // waits for the generation to change
    | Returned(result: Value)

  /** local is find's variable `value`; known is history: the key's binding when the call began. */
  datatype Thread = Thread(pc: Pc, op: Op, local: Value, known: Option<Value>)

  /** bound is history: the value of each key's first successful insertion. */
  datatype State = State(
    tables: seq<Table>, current: Option<nat>, from: Option<nat>, to: Option<nat>,
    migrateCnt: int, generation: nat, taskPos: nat,
    threads: seq<Thread>, bound: map<Key, Value>, crashed: bool)

  function NewTable(size: nat): Table {
    seq(size, _ => Slot(EMPTY_KEY, EMPTY_VALUE))
  }

  ghost predicate Init(s: State) {
    && s.tables == [NewTable(1)] && s.current == Some(0) && s.from == None && s.to == None
    && s.migrateCnt == 0
    && (forall t :: 0 <= t < |s.threads| ==> s.threads[t].pc == Idle)
    && s.bound == map[] && !s.crashed
  }

  // ----- steps

  datatype Action = Call(op: Op) | Return | Advance

  function Put(s: State, t: nat, pc: Pc): State
    requires t < |s.threads|
  {
    s.(threads := s.threads[t := s.threads[t].(pc := pc)])
  }

  function SetSlot(s: State, x: nat, p: nat, slot: Slot): State
    requires x < |s.tables| && p < |s.tables[x]|
  {
    s.(tables := s.tables[x := s.tables[x][p := slot]])
  }

  function Lookup(s: State, k: Key): Option<Value> {
    if k in s.bound then Some(s.bound[k]) else None
  }

  ghost predicate Enabled(s: State, t: nat, a: Action) {
    && t < |s.threads| && !s.crashed
    && match a
       case Call(op) => s.threads[t].pc == Idle && op.key != EMPTY_KEY && (op.Insert? ==> op.arg != MIGRATE_VALUE)
       case Return => s.threads[t].pc.Returned?
       case Advance =>
         (s.threads[t].pc != Idle && !s.threads[t].pc.Returned?
          && (s.threads[t].pc.Await? ==> s.generation != s.threads[t].pc.gen))
  }

  /** The next probe of an operation, or what it does when its probe limit is exhausted. */
  function NextProbe(s: State, t: nat, x: nat, i: nat): State
    requires t < |s.threads| && x < |s.tables|
  {
    if i < ProbeLimit(|s.tables[x]|) then Put(s, t, Probe(x, i))
    else match s.threads[t].op
      case Insert(_, _) => Put(s, t, WantMigrate(Some(x)))
      case Find(_, _) => Put(s, t, Returned(s.threads[t].local))
  }

  function Probing(s: State, t: nat, x: nat, i: nat): State
    requires t < |s.threads| && x < |s.tables| && |s.tables[x]| > 0
  {
    var th := s.threads[t];
    var p := ProbeSlot(th.op.key, |s.tables[x]|, i);
    var key := s.tables[x][p].key;
    if key == EMPTY_KEY then
      match th.op
      case Insert(_, _) => Put(s, t, Claim(x, i))
      case Find(_, _) => Put(s, t, Returned(th.local))
    else if key == th.op.key then Put(s, t, Found(x, p))
    else NextProbe(s, t, x, i + 1)
  }

  function Claiming(s: State, t: nat, x: nat, i: nat): State
    requires t < |s.threads| && x < |s.tables| && |s.tables[x]| > 0
  {
    var k := s.threads[t].op.key;
    var p := ProbeSlot(k, |s.tables[x]|, i);
    if s.tables[x][p].key == EMPTY_KEY then
      Put(SetSlot(s, x, p, s.tables[x][p].(key := k)), t, Found(x, p))
    else
      Put(s, t, Probe(x, i))
  }

  function Accessing(s: State, t: nat, x: nat, p: nat): State
    requires t < |s.threads| && x < |s.tables| && p < |s.tables[x]|
  {
    var th := s.threads[t];
    var seen := s.tables[x][p].value;
    match th.op
    case Insert(k, v) =>
      if seen == EMPTY_VALUE then
        Put(SetSlot(s, x, p, s.tables[x][p].(value := v)), t, Returned(v))
          .(bound := if v != EMPTY_VALUE then s.bound[k := v] else s.bound)
      else if seen == MIGRATE_VALUE then Put(s, t, WantMigrate(Some(x)))
      else Put(s, t, Returned(seen))
    case Find(k, _) =>
      var s' := s.(threads := s.threads[t := th.(local := seen)]);
      if seen != MIGRATE_VALUE then Put(s', t, Returned(seen)) else Put(s', t, WantMigrate(Some(x)))
  }

  /** The first locked region of do_migrate, with init_migrate. */
  function Joining(s: State, t: nat, ptr: Option<nat>): State
    requires t < |s.threads|
  {
    if s.current != ptr then Put(s, t, Protect)
    else
      var s1 :=
        if s.from.Some? then s
        else if s.current.Some? && s.current.value < |s.tables| then
          s.(generation := s.generation + 1, from := s.current, current := None,
             tables := s.tables + [NewTable(2 * |s.tables[s.current.value]|)],
             to := Some(|s.tables|), taskPos := 0)
        else s;
      Put(s1.(migrateCnt := s1.migrateCnt + 1), t, GrabTask(s1.generation))
  }

  function Grabbing(s: State, t: nat, gen: nat): State
    requires t < |s.threads| && s.from.Some? && s.from.value < |s.tables|
  {
    var size := |s.tables[s.from.value]|;
    var begin := s.taskPos * CHUNK_SIZE;
    var end := if begin + CHUNK_SIZE > size then size else begin + CHUNK_SIZE;
    Put(s.(taskPos := s.taskPos + 1), t, if begin >= end then Leave(gen) else Seal(gen, begin, end))
  }

  /** The next slot of the chunk, or the next chunk. */
  function NextSeal(gen: nat, i: nat, end: nat): Pc {
    if i < end then Seal(gen, i, end) else GrabTask(gen)
  }

  function Sealing(s: State, t: nat, gen: nat, i: nat, end: nat): State
    requires t < |s.threads| && s.from.Some? && s.from.value < |s.tables| && i < |s.tables[s.from.value]|
  {
    var f := s.from.value;
    var was := s.tables[f][i];
    Put(SetSlot(s, f, i, was.(value := MIGRATE_VALUE)), t,
        if was.value == EMPTY_VALUE then NextSeal(gen, i + 1, end)
        else MoveProbe(gen, i, end, was.key, was.value, 0))
  }

  function MoveProbing(s: State, t: nat, gen: nat, i: nat, end: nat, k: Key, v: Value, j: nat): State
    requires t < |s.threads| && s.to.Some? && s.to.value < |s.tables| && |s.tables[s.to.value]| > 0
  {
    var size := |s.tables[s.to.value]|;
    if j >= ProbeLimit(size) then s.(crashed := true)    // LOG_CHECK(ok): migration overflow
    else Put(s, t, MoveNext(s.tables[s.to.value], gen, i, end, k, v, j))
  }

  /** What the probe of the new table does next for the key it carries. */
  function MoveNext(to: Table, gen: nat, i: nat, end: nat, k: Key, v: Value, j: nat): Pc
    requires |to| > 0
  {
    var p := ProbeSlot(k, |to|, j);
    if to[p].key == EMPTY_KEY then MoveClaim(gen, i, end, k, v, j)
    else if to[p].key == k then MoveStore(gen, i, end, k, v, p)
    else MoveProbe(gen, i, end, k, v, j + 1)
  }

  function MoveClaiming(s: State, t: nat, gen: nat, i: nat, end: nat, k: Key, v: Value, j: nat): State
    requires t < |s.threads| && s.to.Some? && s.to.value < |s.tables| && |s.tables[s.to.value]| > 0
  {
    var p := ProbeSlot(k, |s.tables[s.to.value]|, j);
    if s.tables[s.to.value][p].key == EMPTY_KEY then
      Put(SetSlot(s, s.to.value, p, s.tables[s.to.value][p].(key := k)), t, MoveStore(gen, i, end, k, v, p))
    else
      Put(s, t, MoveProbe(gen, i, end, k, v, j))
  }

  function MoveStoring(s: State, t: nat, gen: nat, i: nat, end: nat, v: Value, p: nat): State
    requires t < |s.threads| && s.to.Some? && s.to.value < |s.tables| && p < |s.tables[s.to.value]|
  {
    Put(SetSlot(s, s.to.value, p, s.tables[s.to.value][p].(value := v)), t, NextSeal(gen, i + 1, end))
  }

  /** The second locked region of do_migrate, with finish_migrate. */
  function Leaving(s: State, t: nat, gen: nat): State
    requires t < |s.threads|
  {
    var s1 := Put(s, t, Await(gen)).(migrateCnt := s.migrateCnt - 1);
    if s1.migrateCnt == 0 then s1.(current := s.to, from := None, to := None, generation := s.generation + 1) else s1
  }

  /** The accesses of a step are to tables and slots that exist. */
  ghost predicate InRange(s: State, t: nat)
    requires t < |s.threads|
  {
    var fromThere := s.from.Some? && s.from.value < |s.tables|;
    var toThere := s.to.Some? && s.to.value < |s.tables| && |s.tables[s.to.value]| > 0;
    match s.threads[t].pc
    case Probe(x, i) => x < |s.tables| && |s.tables[x]| > 0
    case Claim(x, i) => x < |s.tables| && |s.tables[x]| > 0
    case Found(x, p) => x < |s.tables| && p < |s.tables[x]|
    case GrabTask(_) => fromThere
    case Seal(_, i, _) => fromThere && i < |s.tables[s.from.value]|
    case MoveProbe(_, _, _, _, _, _) => toThere
    case MoveClaim(_, _, _, _, _, _) => toThere
    case MoveStore(_, _, _, _, _, p) => toThere && p < |s.tables[s.to.value]|
    case _ => true
  }

  function Advancing(s: State, t: nat): State
    requires t < |s.threads| && InRange(s, t)
  {
    match s.threads[t].pc
    case Idle => s
    case Protect =>
      Put(s, t, if s.current.Some? then Probe(s.current.value, 0) else WantMigrate(None))
    case Probe(x, i) => Probing(s, t, x, i)
    case Claim(x, i) => Claiming(s, t, x, i)
    case Found(x, p) => Accessing(s, t, x, p)
    case WantMigrate(ptr) => Joining(s, t, ptr)
    case GrabTask(gen) => Grabbing(s, t, gen)
    case Seal(gen, i, end) => Sealing(s, t, gen, i, end)
    case MoveProbe(gen, i, end, k, v, j) => MoveProbing(s, t, gen, i, end, k, v, j)
    case MoveClaim(gen, i, end, k, v, j) => MoveClaiming(s, t, gen, i, end, k, v, j)
    case MoveStore(gen, i, end, k, v, p) => MoveStoring(s, t, gen, i, end, v, p)
    case Leave(gen) => Leaving(s, t, gen)
    case Await(_) => Put(s, t, Protect)
    case Returned(_) => s
  }

  function Do(s: State, t: nat, a: Action): State
    requires Enabled(s, t, a) && InRange(s, t)
  {
    match a
    case Call(op) => s.(threads := s.threads[t := Thread(Protect, op, op.arg, Lookup(s, op.key))])
    case Return => Put(s, t, Idle)
    case Advance => Advancing(s, t)
  }

  ghost predicate Next(s: State, s': State) {
    exists t, a :: Enabled(s, t, a) && InRange(s, t) && s' == Do(s, t, a)
  }

  // ----- what holds of one table

  ghost predicate Passed(tb: Table, k: Key, i: nat)
    requires |tb| > 0
  {
    forall j :: 0 <= j < i ==> tb[ProbeSlot(k, |tb|, j)].key != EMPTY_KEY && tb[ProbeSlot(k, |tb|, j)].key != k
  }

  /** The slot holds no key, or a key whose probe sequence comes here over slots that other keys hold. */
  ghost predicate Placed(tb: Table, p: nat)
    requires p < |tb|
  {
    tb[p].key != EMPTY_KEY ==>
      exists j :: 0 <= j < ProbeLimit(|tb|) && ProbeSlot(tb[p].key, |tb|, j) == p && Passed(tb, tb[p].key, j)
  }

  ghost predicate TableOK(tb: Table) {
    && |tb| > 0
    && forall p :: 0 <= p < |tb| ==> Placed(tb, p) && (tb[p].value > MIGRATE_VALUE ==> tb[p].key != EMPTY_KEY)
  }

  ghost predicate HasSlot(tb: Table, slot: Slot) {
    exists p :: 0 <= p < |tb| && tb[p] == slot
  }

  /** Keys are written once; a value appears once and is then at most sealed. */
  ghost predicate Evolves(tb: Table, tb': Table) {
    && |tb'| == |tb|
    && forall p :: 0 <= p < |tb| ==>
         && (tb[p].key != EMPTY_KEY ==> tb'[p].key == tb[p].key)
         && (tb'[p].value == tb[p].value || tb[p].value == EMPTY_VALUE || tb'[p].value == MIGRATE_VALUE)
  }

  lemma OneSlotPerKey(tb: Table, p: nat, q: nat)
    requires TableOK(tb) && p < |tb| && q < |tb| && tb[p].key == tb[q].key != EMPTY_KEY
    ensures p == q
  {
    assert Placed(tb, p) && Placed(tb, q);
    var k := tb[p].key;
    var i :| 0 <= i < ProbeLimit(|tb|) && ProbeSlot(k, |tb|, i) == p && Passed(tb, k, i);
    var j :| 0 <= j < ProbeLimit(|tb|) && ProbeSlot(k, |tb|, j) == q && Passed(tb, k, j);
    assert !(i < j) && !(j < i);
  }

  /** A probe that has passed i slots has not passed the slot of the key, if the table has one. */
  lemma ProbeFinds(tb: Table, k: Key, i: nat, p: nat)
    requires TableOK(tb) && k != EMPTY_KEY && p < |tb| && tb[p].key == k && Passed(tb, k, i)
    ensures i < ProbeLimit(|tb|) && tb[ProbeSlot(k, |tb|, i)].key != EMPTY_KEY
  {
    assert Placed(tb, p);
    var j :| 0 <= j < ProbeLimit(|tb|) && ProbeSlot(k, |tb|, j) == p && Passed(tb, k, j);
    assert !(j < i);
  }

  lemma PassedEvolves(tb: Table, tb': Table, k: Key, i: nat)
    requires |tb| > 0 && Evolves(tb, tb') && Passed(tb, k, i)
    ensures Passed(tb', k, i)
  {
  }

  lemma ClaimOK(tb: Table, k: Key, i: nat)
    requires TableOK(tb) && k != EMPTY_KEY && i < ProbeLimit(|tb|) && Passed(tb, k, i)
    requires tb[ProbeSlot(k, |tb|, i)].key == EMPTY_KEY
    ensures var p := ProbeSlot(k, |tb|, i);
      var tb' := tb[p := tb[p].(key := k)];
      TableOK(tb') && Evolves(tb, tb')
  {
    var p := ProbeSlot(k, |tb|, i);
    var tb' := tb[p := tb[p].(key := k)];
    assert Evolves(tb, tb');
    forall q | 0 <= q < |tb'| ensures Placed(tb', q) {
      assert Placed(tb, q);
      if q == p {
        PassedEvolves(tb, tb', k, i);
      } else if tb[q].key != EMPTY_KEY {
        var j :| 0 <= j < ProbeLimit(|tb|) && ProbeSlot(tb[q].key, |tb|, j) == q && Passed(tb, tb[q].key, j);
        PassedEvolves(tb, tb', tb[q].key, j);
      }
    }
  }

  lemma ValueOK(tb: Table, p: nat, v: Value)
    requires TableOK(tb) && p < |tb| && (v > MIGRATE_VALUE ==> tb[p].key != EMPTY_KEY)
    requires tb[p].value == EMPTY_VALUE || v == MIGRATE_VALUE || v == tb[p].value
    ensures TableOK(tb[p := tb[p].(value := v)]) && Evolves(tb, tb[p := tb[p].(value := v)])
  {
    var tb' := tb[p := tb[p].(value := v)];
    assert Evolves(tb, tb');
    forall q | 0 <= q < |tb'| ensures Placed(tb', q) {
      assert Placed(tb, q);
      if tb[q].key != EMPTY_KEY {
        var j :| 0 <= j < ProbeLimit(|tb|) && ProbeSlot(tb[q].key, |tb|, j) == q && Passed(tb, tb[q].key, j);
        PassedEvolves(tb, tb', tb[q].key, j);
      }
    }
  }

  lemma NewTableOK(size: nat)
    requires size > 0
    ensures TableOK(NewTable(size))
  {
  }

  // ----- the invariant

  /** Moving an entry to the new table. */
  predicate Carries(pc: Pc, k: Key, v: Value) {
    (pc.MoveProbe? || pc.MoveClaim? || pc.MoveStore?) && pc.k == k && pc.v == v
  }

  predicate Migrating(pc: Pc) {
    pc.GrabTask? || pc.Seal? || pc.MoveProbe? || pc.MoveClaim? || pc.MoveStore? || pc.Leave?
  }

  /** The slots of its chunk that the thread has still to seal. */
  predicate Pends(pc: Pc, q: nat) {
    (pc.Seal? && pc.i <= q < pc.end) || ((pc.MoveProbe? || pc.MoveClaim? || pc.MoveStore?) && pc.i < q < pc.end)
  }

  ghost function Migrants(s: State): set<nat> {
    set t | 0 <= t < |s.threads| && Migrating(s.threads[t].pc)
  }

  /** Between migrations the newest table is published; during one the newest is being filled. */
  ghost predicate Phase(s: State) {
    && |s.tables| > 0
    && (s.current.Some? ==> s.current.value == |s.tables| - 1 && s.from == None && s.to == None)
    && (s.current.None? ==> |s.tables| >= 2 && s.from == Some(|s.tables| - 2) && s.to == Some(|s.tables| - 1))
    && (s.current.Some? ==> Migrants(s) == {})
    && (s.current.None? ==> Migrants(s) != {})
    && s.migrateCnt == |Migrants(s)|
  }

  /** The newest table that operations can see. */
  function Visible(s: State): int {
    if s.current.Some? then |s.tables| - 1 else |s.tables| - 2
  }

  ghost predicate AllSealed(tb: Table) {
    forall p :: 0 <= p < |tb| ==> tb[p].value == MIGRATE_VALUE
  }

  ghost predicate NoneSealed(tb: Table) {
    forall p :: 0 <= p < |tb| ==> tb[p].value != MIGRATE_VALUE
  }

  function Newest(s: State): Table
    requires |s.tables| >= 1
  {
    s.tables[|s.tables| - 1]
  }

  function Previous(s: State): Table
    requires |s.tables| >= 2
  {
    s.tables[|s.tables| - 2]
  }

  ghost predicate TablesOK(s: State) {
    && |s.tables| >= 1
    && (forall x :: 0 <= x < |s.tables| ==> TableOK(s.tables[x]))
    && (forall x :: 0 <= x < Visible(s) ==> AllSealed(s.tables[x]))
    && NoneSealed(Newest(s))
  }

  ghost predicate SomeonePends(s: State, q: nat) {
    exists t :: 0 <= t < |s.threads| && Pends(s.threads[t].pc, q)
  }

  /** A slot of the old table is sealed exactly when its chunk was handed out and it is not pending. */
  ghost predicate SealOK(s: State) {
    s.current.None? ==>
      (&& |s.tables| >= 2
       && (forall q :: 0 <= q < |Previous(s)| ==>
             (Previous(s)[q].value == MIGRATE_VALUE <==> q < s.taskPos * CHUNK_SIZE && !SomeonePends(s, q)))
       && (forall t, u, q: nat :: 0 <= t < |s.threads| && 0 <= u < |s.threads| && t != u && Pends(s.threads[t].pc, q) ==>
             !Pends(s.threads[u].pc, q))
       && (forall t, q: nat :: 0 <= t < |s.threads| && Pends(s.threads[t].pc, q) ==>
             q < s.taskPos * CHUNK_SIZE && q < |Previous(s)|))
  }

  /** Every stored value is its key's binding. */
  ghost predicate BoundOK(s: State) {
    && (forall k :: k in s.bound ==> s.bound[k] > MIGRATE_VALUE && k != EMPTY_KEY)
    && (forall x, p :: 0 <= x < |s.tables| && 0 <= p < |s.tables[x]| && s.tables[x][p].value > MIGRATE_VALUE ==>
          s.tables[x][p].key in s.bound && s.bound[s.tables[x][p].key] == s.tables[x][p].value)
  }

  ghost predicate Carried(s: State, k: Key, v: Value) {
    exists t :: 0 <= t < |s.threads| && Carries(s.threads[t].pc, k, v)
  }

  /** Where a binding is kept. */
  ghost predicate Located(s: State, k: Key, v: Value)
    requires |s.tables| >= 1
  {
    || HasSlot(Newest(s), Slot(k, v))
    || (s.current.None? && |s.tables| >= 2 && (HasSlot(Previous(s), Slot(k, v)) || Carried(s, k, v)))
  }

  ghost predicate MovedFrom(from: Table, to: Table) {
    forall p :: 0 <= p < |to| && to[p].key != EMPTY_KEY ==> HasSlot(from, Slot(to[p].key, MIGRATE_VALUE))
  }

  /** A key of the new table was sealed in the old one. */
  ghost predicate MovedOK(s: State) {
    s.current.None? ==> |s.tables| >= 2 && MovedFrom(Previous(s), Newest(s))
  }

  /** An operation whose key was bound before it began works on a table that has the key. */
  ghost predicate KnownIn(s: State, th: Thread, x: nat)
    requires x < |s.tables|
  {
    th.known.Some? ==>
      HasSlot(s.tables[x], Slot(th.op.key, th.known.value)) || HasSlot(s.tables[x], Slot(th.op.key, MIGRATE_VALUE))
  }

  ghost predicate OpOK(s: State, th: Thread) {
    && th.op.key != EMPTY_KEY
    && (th.op.Insert? ==> th.op.arg != MIGRATE_VALUE)
    && (th.known.Some? ==> th.op.key in s.bound && s.bound[th.op.key] == th.known.value)
    && (th.op.Find? && !th.pc.Returned? ==> th.local == th.op.arg || th.local == MIGRATE_VALUE)
  }

  /** What a call may answer. */
  ghost predicate AnswerOK(s: State, th: Thread, w: Value) {
    && (th.known.Some? ==> w == th.known.value)
    && (w == EMPTY_VALUE || (th.op.key in s.bound && s.bound[th.op.key] == w)
        || (th.op.Find? && (w == th.op.arg || w == MIGRATE_VALUE)))
  }

  /** The entry in a migrating thread's hands. */
  ghost predicate CarryOK(s: State, k: Key, v: Value) {
    && k in s.bound && s.bound[k] == v
    && s.current.None? && |s.tables| >= 2 && HasSlot(Previous(s), Slot(k, MIGRATE_VALUE))
  }

  ghost predicate MigrantOK(s: State, pc: Pc)
    requires |s.tables| >= 2 && forall x :: 0 <= x < |s.tables| ==> |s.tables[x]| > 0
  {
    var from, to := Previous(s), Newest(s);
    match pc
    case Seal(_, i, end) => i < end <= |from| && end <= s.taskPos * CHUNK_SIZE
    case MoveProbe(_, i, end, k, v, j) => i < end && CarryOK(s, k, v) && Passed(to, k, j) && j <= ProbeLimit(|to|)
    case MoveClaim(_, i, end, k, v, j) => i < end && CarryOK(s, k, v) && Passed(to, k, j) && j < ProbeLimit(|to|)
    case MoveStore(_, i, end, k, v, p) => i < end && CarryOK(s, k, v) && p < |to| && to[p].key == k
    case Leave(_) => |from| <= s.taskPos * CHUNK_SIZE
    case _ => true
  }

  ghost predicate CallOK(s: State, th: Thread)
    requires |s.tables| >= 1 && forall x :: 0 <= x < |s.tables| ==> |s.tables[x]| > 0
  {
    match th.pc
    case Probe(x, i) =>
      x <= Visible(s) && i < ProbeLimit(|s.tables[x]|) && Passed(s.tables[x], th.op.key, i) && KnownIn(s, th, x)
    case Claim(x, i) =>
      x <= Visible(s) && i < ProbeLimit(|s.tables[x]|) && Passed(s.tables[x], th.op.key, i) && KnownIn(s, th, x)
    case Found(x, p) => x <= Visible(s) && p < |s.tables[x]| && s.tables[x][p].key == th.op.key && KnownIn(s, th, x)
    case Returned(w) => AnswerOK(s, th, w)
    case _ => true
  }

  ghost predicate ThreadOK(s: State, t: nat)
    requires t < |s.threads| && |s.tables| >= 1 && forall x :: 0 <= x < |s.tables| ==> |s.tables[x]| > 0
  {
    var th := s.threads[t];
    && (th.pc != Idle ==> OpOK(s, th))
    && CallOK(s, th)
    && (Migrating(th.pc) ==> |s.tables| >= 2 && MigrantOK(s, th.pc))
  }

  ghost predicate ThreadsOK(s: State) {
    && |s.tables| >= 1 && (forall x :: 0 <= x < |s.tables| ==> |s.tables[x]| > 0)
    && forall t :: 0 <= t < |s.threads| ==> ThreadOK(s, t)
  }

  ghost predicate Inv(s: State) {
    && Phase(s) && TablesOK(s) && SealOK(s) && BoundOK(s) && MovedOK(s) && ThreadsOK(s)
    && forall k :: k in s.bound ==> Located(s, k, s.bound[k])
  }

  lemma InitInv(s: State)
    requires Init(s)
    ensures Inv(s)
  {
    assert Migrants(s) == {};
    NewTableOK(1);
  }

  /** No step of a reachable state touches a table or slot that is not there. */
  lemma InvInRange(s: State, t: nat)
    requires Inv(s) && t < |s.threads|
    ensures InRange(s, t)
  {
    assert ThreadOK(s, t);
    if Migrating(s.threads[t].pc) {
      assert t in Migrants(s);
    }
  }

  // ----- frames

  /** The tables only evolve, the phase stays, and the history grows. */
  ghost predicate Forward(s: State, s': State) {
    && |s'.tables| == |s.tables| && s'.current == s.current && s'.from == s.from && s'.to == s.to
    && |s'.threads| == |s.threads|
    && (forall x :: 0 <= x < |s.tables| ==> Evolves(s.tables[x], s'.tables[x]))
    && s'.taskPos >= s.taskPos
    && (forall k :: k in s.bound ==> k in s'.bound && s'.bound[k] == s.bound[k])
  }

  lemma SlotEvolves(tb: Table, tb': Table, k: Key, v: Value)
    requires Evolves(tb, tb') && HasSlot(tb, Slot(k, v)) && k != EMPTY_KEY && v != EMPTY_VALUE
    ensures HasSlot(tb', Slot(k, v)) || HasSlot(tb', Slot(k, MIGRATE_VALUE))
    ensures v == MIGRATE_VALUE ==> HasSlot(tb', Slot(k, MIGRATE_VALUE))
  {
    var p :| 0 <= p < |tb| && tb[p] == Slot(k, v);
    assert tb'[p] == Slot(k, v) || tb'[p] == Slot(k, MIGRATE_VALUE);
  }

  lemma KnownInForward(s: State, s': State, th: Thread, x: nat)
    requires Forward(s, s') && x < |s.tables| && KnownIn(s, th, x) && OpOK(s, th) && BoundOK(s)
    ensures KnownIn(s', th, x)
  {
    if th.known.Some? {
      var k, w := th.op.key, th.known.value;
      if HasSlot(s.tables[x], Slot(k, w)) {
        SlotEvolves(s.tables[x], s'.tables[x], k, w);
      } else {
        SlotEvolves(s.tables[x], s'.tables[x], k, MIGRATE_VALUE);
      }
    }
  }

  lemma CarryForward(s: State, s': State, k: Key, v: Value)
    requires Forward(s, s') && BoundOK(s) && CarryOK(s, k, v)
    ensures CarryOK(s', k, v)
  {
    SlotEvolves(Previous(s), Previous(s'), k, MIGRATE_VALUE);
  }

  lemma CallForward(s: State, s': State, th: Thread)
    requires Forward(s, s') && BoundOK(s) && ThreadsOK(s) && th.pc != Idle && OpOK(s, th) && CallOK(s, th)
    ensures CallOK(s', th)
  {
    match th.pc
    case Probe(x, i) => KnownInForward(s, s', th, x); PassedEvolves(s.tables[x], s'.tables[x], th.op.key, i);
    case Claim(x, i) => KnownInForward(s, s', th, x); PassedEvolves(s.tables[x], s'.tables[x], th.op.key, i);
    case Found(x, p) => KnownInForward(s, s', th, x);
    case _ =>
  }

  lemma MigrantForward(s: State, s': State, pc: Pc)
    requires Forward(s, s') && BoundOK(s) && ThreadsOK(s) && |s.tables| >= 2 && MigrantOK(s, pc)
    ensures MigrantOK(s', pc)
  {
    match pc
    case MoveProbe(_, _, _, k, v, j) => CarryForward(s, s', k, v); PassedEvolves(Newest(s), Newest(s'), k, j);
    case MoveClaim(_, _, _, k, v, j) => CarryForward(s, s', k, v); PassedEvolves(Newest(s), Newest(s'), k, j);
    case MoveStore(_, _, _, k, v, p) => CarryForward(s, s', k, v);
    case _ =>
  }

  lemma ThreadsForward(s: State, s': State, t: nat)
    requires Forward(s, s') && BoundOK(s) && ThreadsOK(s) && t < |s.threads|
    requires forall u :: 0 <= u < |s.threads| && u != t ==> s'.threads[u] == s.threads[u]
    requires (forall x :: 0 <= x < |s'.tables| ==> |s'.tables[x]| > 0) ==> ThreadOK(s', t)
    ensures ThreadsOK(s')
  {
    forall u | 0 <= u < |s'.threads| ensures ThreadOK(s', u) {
      assert ThreadOK(s, u);
      if u != t && s.threads[u].pc != Idle {
        CallForward(s, s', s.threads[u]);
        if Migrating(s.threads[u].pc) { MigrantForward(s, s', s.threads[u].pc); }
      }
    }
  }

  lemma MigrantsChange(s: State, s': State, t: nat)
    requires |s'.threads| == |s.threads| && t < |s.threads|
    requires forall u :: 0 <= u < |s.threads| && u != t ==> s'.threads[u] == s.threads[u]
    ensures Migrants(s') - {t} == Migrants(s) - {t}
    ensures |Migrants(s')| - (if Migrating(s'.threads[t].pc) then 1 else 0) == |Migrants(s)| - (if Migrating(s.threads[t].pc) then 1 else 0)
  {
    forall u | u != t ensures u in Migrants(s') <==> u in Migrants(s) {
    }
    SizeChange(Migrants(s), Migrants(s'), t);
  }

  lemma SizeChange(a: set<nat>, b: set<nat>, t: nat)
    requires forall u :: u != t ==> (u in a <==> u in b)
    ensures a - {t} == b - {t}
    ensures |a| - (if t in a then 1 else 0) == |b| - (if t in b then 1 else 0)
  {
    assert a - {t} == b - {t};
    assert t in a ==> a == (a - {t}) + {t};
    assert t !in a ==> a == a - {t};
    assert t in b ==> b == (b - {t}) + {t};
    assert t !in b ==> b == b - {t};
  }

  lemma PhaseSame(s: State, s': State, t: nat)
    requires Phase(s) && Forward(s, s') && t < |s.threads| && s'.migrateCnt == s.migrateCnt
    requires forall u :: 0 <= u < |s.threads| && u != t ==> s'.threads[u] == s.threads[u]
    requires Migrating(s'.threads[t].pc) == Migrating(s.threads[t].pc)
    ensures Phase(s')
  {
    MigrantsChange(s, s', t);
    assert Migrants(s') == Migrants(s);
  }

  /** Nothing but control of one thread changes, outside the chunks and what is carried. */
  lemma QuietStep(s: State, s': State, t: nat)
    requires Inv(s) && Forward(s, s') && t < |s.threads|
    requires s'.tables == s.tables && s'.bound == s.bound && s'.migrateCnt == s.migrateCnt && s'.taskPos == s.taskPos
    requires forall u :: 0 <= u < |s.threads| && u != t ==> s'.threads[u] == s.threads[u]
    requires Migrating(s'.threads[t].pc) == Migrating(s.threads[t].pc)
    requires forall q: nat :: Pends(s'.threads[t].pc, q) == Pends(s.threads[t].pc, q)
    requires forall k, v :: Carries(s.threads[t].pc, k, v) ==> Carries(s'.threads[t].pc, k, v)
    requires ThreadOK(s', t)
    ensures Inv(s')
  {
    PhaseSame(s, s', t);
    ThreadsForward(s, s', t);
    PendsKept(s, s', t);
    forall k | k in s'.bound ensures Located(s', k, s'.bound[k]) {
      LocatedSame(s, s', t, k, s.bound[k]);
    }
  }

  lemma LocatedSame(s: State, s': State, t: nat, k: Key, v: Value)
    requires |s.tables| >= 1 && |s'.threads| == |s.threads| && t < |s.threads| && Located(s, k, v)
    requires s'.tables == s.tables && s'.current == s.current
    requires forall u :: 0 <= u < |s.threads| && u != t ==> s'.threads[u] == s.threads[u]
    requires Carries(s.threads[t].pc, k, v) ==> Carries(s'.threads[t].pc, k, v)
    ensures Located(s', k, v)
  {
    if s.current.None? && Carried(s, k, v) {
      var u :| 0 <= u < |s.threads| && Carries(s.threads[u].pc, k, v);
      assert Carries(s'.threads[u].pc, k, v);
    }
  }

  // ----- operations

  /** Only the thread's own record changes, and it is not migrating before or after. */
  lemma QuietThread(s: State, t: nat, th: Thread)
    requires Inv(s) && t < |s.threads| && !Migrating(s.threads[t].pc) && !Migrating(th.pc)
    requires (th.pc != Idle ==> OpOK(s, th)) && CallOK(s, th)
    ensures Inv(s.(threads := s.threads[t := th]))
  {
    var s' := s.(threads := s.threads[t := th]);
    CallElsewhere(s, s', th);
    QuietStep(s, s', t);
  }

  lemma CallElsewhere(s: State, s': State, th: Thread)
    requires |s.tables| >= 1 && (forall x :: 0 <= x < |s.tables| ==> |s.tables[x]| > 0)
    requires s'.tables == s.tables && s'.current == s.current && s'.bound == s.bound
    requires (th.pc != Idle ==> OpOK(s, th)) && CallOK(s, th)
    ensures (th.pc != Idle ==> OpOK(s', th)) && CallOK(s', th)
  {
  }

  lemma QuietPc(s: State, t: nat, pc: Pc)
    requires Inv(s) && t < |s.threads| && !Migrating(s.threads[t].pc) && !Migrating(pc) && s.threads[t].pc != Idle
    requires pc != Idle ==> !s.threads[t].pc.Returned?
    requires CallOK(s, s.threads[t].(pc := pc))
    ensures Inv(Put(s, t, pc))
  {
    assert ThreadOK(s, t);
    QuietThread(s, t, s.threads[t].(pc := pc));
  }

  lemma CallInv(s: State, t: nat, op: Op)
    requires Inv(s) && Enabled(s, t, Call(op)) && InRange(s, t)
    ensures Inv(Do(s, t, Call(op)))
  {
    QuietThread(s, t, Thread(Protect, op, op.arg, Lookup(s, op.key)));
  }

  lemma ReturnInv(s: State, t: nat)
    requires Inv(s) && Enabled(s, t, Return) && InRange(s, t)
    ensures Inv(Do(s, t, Return))
  {
    QuietPc(s, t, Idle);
  }

  /** The table an operation loads has its key, if the key was bound before the operation began. */
  lemma ProtectInv(s: State, t: nat)
    requires Inv(s) && t < |s.threads| && s.threads[t].pc == Protect
    ensures Inv(Advancing(s, t))
  {
    assert ThreadOK(s, t);
    var th := s.threads[t];
    if s.current.Some? {
      if th.known.Some? {
        assert Located(s, th.op.key, s.bound[th.op.key]);
      }
      QuietPc(s, t, Probe(s.current.value, 0));
    } else {
      QuietPc(s, t, WantMigrate(None));
    }
  }

  lemma AwaitInv(s: State, t: nat)
    requires Inv(s) && t < |s.threads| && s.threads[t].pc.Await?
    ensures Inv(Advancing(s, t))
  {
    QuietPc(s, t, Protect);
  }

  /** The slot of a known key is met before an empty slot and before the probe limit. */
  lemma KnownAhead(s: State, th: Thread, x: nat, i: nat)
    requires TablesOK(s) && x < |s.tables| && OpOK(s, th) && KnownIn(s, th, x) && th.known.Some?
    requires Passed(s.tables[x], th.op.key, i)
    ensures i < ProbeLimit(|s.tables[x]|)
    ensures s.tables[x][ProbeSlot(th.op.key, |s.tables[x]|, i)].key != EMPTY_KEY
  {
    var tb := s.tables[x];
    assert TableOK(tb);
    var p :| 0 <= p < |tb| && tb[p].key == th.op.key;
    ProbeFinds(tb, th.op.key, i, p);
  }

  lemma PassedOne(tb: Table, k: Key, i: nat)
    requires |tb| > 0 && Passed(tb, k, i)
    requires tb[ProbeSlot(k, |tb|, i)].key != EMPTY_KEY && tb[ProbeSlot(k, |tb|, i)].key != k
    ensures Passed(tb, k, i + 1)
  {
  }

  lemma ProbeInv(s: State, t: nat)
    requires Inv(s) && t < |s.threads| && s.threads[t].pc.Probe? && InRange(s, t)
    ensures Inv(Probing(s, t, s.threads[t].pc.table, s.threads[t].pc.i))
  {
    var th := s.threads[t];
    var x, i, tb := th.pc.table, th.pc.i, s.tables[th.pc.table];
    var key := tb[ProbeSlot(th.op.key, |tb|, i)].key;
    if key == EMPTY_KEY {
      ProbeEmptyInv(s, t);
      assert Probing(s, t, x, i) == Put(s, t, if th.op.Insert? then Claim(x, i) else Returned(th.local));
    } else if key == th.op.key {
      ProbeHitInv(s, t);
      assert Probing(s, t, x, i) == Put(s, t, Found(x, ProbeSlot(th.op.key, |tb|, i)));
    } else {
      ProbeMissInv(s, t);
      assert Probing(s, t, x, i) == NextProbe(s, t, x, i + 1);
    }
  }

  /** An empty slot ends the probe of a find, whose key was then not known when it began. */
  lemma ProbeEmptyInv(s: State, t: nat)
    requires Inv(s) && t < |s.threads| && s.threads[t].pc.Probe? && InRange(s, t)
    requires var pc, tb := s.threads[t].pc, s.tables[s.threads[t].pc.table];
      tb[ProbeSlot(s.threads[t].op.key, |tb|, pc.i)].key == EMPTY_KEY
    ensures var th := s.threads[t];
      Inv(Put(s, t, if th.op.Insert? then Claim(th.pc.table, th.pc.i) else Returned(th.local)))
  {
    assert ThreadOK(s, t);
    var th := s.threads[t];
    if th.known.Some? {
      KnownAhead(s, th, th.pc.table, th.pc.i);
    }
    QuietPc(s, t, if th.op.Insert? then Claim(th.pc.table, th.pc.i) else Returned(th.local));
  }

  lemma ProbeHitInv(s: State, t: nat)
    requires Inv(s) && t < |s.threads| && s.threads[t].pc.Probe? && InRange(s, t)
    requires var pc, tb := s.threads[t].pc, s.tables[s.threads[t].pc.table];
      tb[ProbeSlot(s.threads[t].op.key, |tb|, pc.i)].key == s.threads[t].op.key
    ensures var th, tb := s.threads[t], s.tables[s.threads[t].pc.table];
      Inv(Put(s, t, Found(th.pc.table, ProbeSlot(th.op.key, |tb|, th.pc.i))))
  {
    assert ThreadOK(s, t);
    var th, tb := s.threads[t], s.tables[s.threads[t].pc.table];
    QuietPc(s, t, Found(th.pc.table, ProbeSlot(th.op.key, |tb|, th.pc.i)));
  }

  lemma ProbeMissInv(s: State, t: nat)
    requires Inv(s) && t < |s.threads| && s.threads[t].pc.Probe? && InRange(s, t)
    requires var th, tb := s.threads[t], s.tables[s.threads[t].pc.table];
      var key := tb[ProbeSlot(th.op.key, |tb|, th.pc.i)].key;
      key != EMPTY_KEY && key != th.op.key
    ensures Inv(NextProbe(s, t, s.threads[t].pc.table, s.threads[t].pc.i + 1))
  {
    assert ThreadOK(s, t);
    var th := s.threads[t];
    PassedOne(s.tables[th.pc.table], th.op.key, th.pc.i);
    NextProbeInv(s, t, th.pc.table, th.pc.i + 1);
  }

  lemma NextProbeInv(s: State, t: nat, x: nat, i: nat)
    requires Inv(s) && t < |s.threads| && !Migrating(s.threads[t].pc) && s.threads[t].pc != Idle && !s.threads[t].pc.Returned?
    requires x < |s.tables| && x <= Visible(s) && KnownIn(s, s.threads[t], x) && Passed(s.tables[x], s.threads[t].op.key, i)
    ensures Inv(NextProbe(s, t, x, i))
  {
    assert ThreadOK(s, t);
    var th := s.threads[t];
    if th.known.Some? {
      KnownAhead(s, th, x, i);
    }
    if i < ProbeLimit(|s.tables[x]|) {
      QuietPc(s, t, Probe(x, i));
    } else if th.op.Insert? {
      QuietPc(s, t, WantMigrate(Some(x)));
    } else {
      QuietPc(s, t, Returned(th.local));
    }
  }

  lemma FindAccessInv(s: State, t: nat)
    requires Inv(s) && t < |s.threads| && s.threads[t].pc.Found? && InRange(s, t) && s.threads[t].op.Find?
    ensures Inv(Accessing(s, t, s.threads[t].pc.table, s.threads[t].pc.p))
  {
    assert ThreadOK(s, t);
    FoundValue(s, t);
    var th := s.threads[t];
    var seen := s.tables[th.pc.table][th.pc.p].value;
    var pc := if seen != MIGRATE_VALUE then Returned(seen) else WantMigrate(Some(th.pc.table));
    QuietThread(s, t, th.(local := seen, pc := pc));
    assert s.threads[t := th.(local := seen)][t := th.(local := seen, pc := pc)] == s.threads[t := th.(local := seen, pc := pc)];
  }

  /** At its key's slot an operation sees nothing yet, the seal, or the key's binding. */
  lemma FoundValue(s: State, t: nat)
    requires Inv(s) && t < |s.threads| && s.threads[t].pc.Found? && InRange(s, t)
    ensures var th := s.threads[t];
      var v := s.tables[th.pc.table][th.pc.p].value;
      && (v > MIGRATE_VALUE ==> th.op.key in s.bound && s.bound[th.op.key] == v)
      && (th.known.Some? ==> v == MIGRATE_VALUE || v == th.known.value)
  {
    assert ThreadOK(s, t);
    var th := s.threads[t];
    var tb := s.tables[th.pc.table];
    if th.known.Some? {
      var q :| 0 <= q < |tb| && tb[q].key == th.op.key && (tb[q].value == th.known.value || tb[q].value == MIGRATE_VALUE);
      assert TableOK(tb);
      OneSlotPerKey(tb, q, th.pc.p);
    }
  }

  lemma InsertSeesInv(s: State, t: nat)
    requires Inv(s) && t < |s.threads| && s.threads[t].pc.Found? && InRange(s, t) && s.threads[t].op.Insert?
    requires s.tables[s.threads[t].pc.table][s.threads[t].pc.p].value != EMPTY_VALUE
    ensures Inv(Accessing(s, t, s.threads[t].pc.table, s.threads[t].pc.p))
  {
    assert ThreadOK(s, t);
    FoundValue(s, t);
    var th := s.threads[t];
    var seen := s.tables[th.pc.table][th.pc.p].value;
    QuietPc(s, t, if seen == MIGRATE_VALUE then WantMigrate(Some(th.pc.table)) else Returned(seen));
  }

  lemma InsertEmptyInv(s: State, t: nat)
    requires Inv(s) && t < |s.threads| && s.threads[t].pc.Found? && InRange(s, t) && s.threads[t].op.Insert?
    requires s.tables[s.threads[t].pc.table][s.threads[t].pc.p].value == EMPTY_VALUE && s.threads[t].op.arg == EMPTY_VALUE
    ensures Inv(Accessing(s, t, s.threads[t].pc.table, s.threads[t].pc.p))
  {
    assert ThreadOK(s, t);
    FoundValue(s, t);
    var th := s.threads[t];
    var x := th.pc.table;
    var tb, p := s.tables[x], th.pc.p;
    assert tb[p := tb[p].(value := EMPTY_VALUE)] == tb;
    assert SetSlot(s, x, p, tb[p].(value := EMPTY_VALUE)).tables == s.tables;
    QuietPc(s, t, Returned(EMPTY_VALUE));
  }

  /** The tables behind the visible one are sealed throughout. */
  lemma NotBehind(s: State, x: nat, p: nat)
    requires TablesOK(s) && x < |s.tables| && p < |s.tables[x]| && s.tables[x][p].value != MIGRATE_VALUE
    ensures x >= Visible(s)
  {
  }

  /** Where an empty value can be filled, the key is not bound anywhere. */
  lemma FillIsFirst(s: State, t: nat)
    requires Inv(s) && t < |s.threads| && s.threads[t].pc.Found? && InRange(s, t)
    requires s.tables[s.threads[t].pc.table][s.threads[t].pc.p].value == EMPTY_VALUE
    ensures s.threads[t].op.key !in s.bound && s.threads[t].pc.table == Visible(s) && s.threads[t].known.None?
  {
    assert ThreadOK(s, t);
    FoundValue(s, t);
    var th := s.threads[t];
    var x, p, k := th.pc.table, th.pc.p, th.op.key;
    NotBehind(s, x, p);
    NotElsewhere(s, k, p);
  }

  /** A slot of the visible table that is neither sealed nor filled excludes a binding of its key. */
  lemma NotElsewhere(s: State, k: Key, p: nat)
    requires Phase(s) && TablesOK(s) && MovedOK(s) && ThreadsOK(s) && k != EMPTY_KEY
    requires Visible(s) >= 0 && p < |s.tables[Visible(s)]| && s.tables[Visible(s)][p] == Slot(k, EMPTY_VALUE)
    ensures forall v :: v > MIGRATE_VALUE ==> !Located(s, k, v)
  {
    var tb := s.tables[Visible(s)];
    assert TableOK(tb);
    forall q | 0 <= q < |tb| && tb[q].key == k ensures q == p {
      OneSlotPerKey(tb, p, q);
    }
    if s.current.None? {
      assert !HasSlot(tb, Slot(k, MIGRATE_VALUE));
      forall v, u | 0 <= u < |s.threads| ensures !Carries(s.threads[u].pc, k, v) {
        assert ThreadOK(s, u);
      }
    }
  }

  // ----- steps that write a slot

  /** One slot of one table changes, so that the table only evolves. */
  lemma SlotForward(s: State, s': State, x: nat, p: nat, slot: Slot)
    requires x < |s.tables| && p < |s.tables[x]|
    requires s'.tables == s.tables[x := s.tables[x][p := slot]] && Evolves(s.tables[x], s'.tables[x])
    requires s'.current == s.current && s'.from == s.from && s'.to == s.to && |s'.threads| == |s.threads|
    requires s'.taskPos == s.taskPos
    requires forall k :: k in s.bound ==> k in s'.bound && s'.bound[k] == s.bound[k]
    ensures Forward(s, s')
  {
    forall y | 0 <= y < |s.tables| ensures Evolves(s.tables[y], s'.tables[y]) {
    }
  }

  lemma HasSlotSet(tb: Table, p: nat, slot: Slot, k: Key, v: Value)
    requires p < |tb| && HasSlot(tb, Slot(k, v)) && tb[p] != Slot(k, v)
    ensures HasSlot(tb[p := slot], Slot(k, v))
  {
    var q :| 0 <= q < |tb| && tb[q] == Slot(k, v);
    assert tb[p := slot][q] == Slot(k, v);
  }

  lemma HasSlotAt(tb: Table, p: nat)
    requires p < |tb|
    ensures HasSlot(tb, tb[p])
  {
  }

  lemma ClaimInv(s: State, t: nat)
    requires Inv(s) && t < |s.threads| && s.threads[t].pc.Claim? && InRange(s, t)
    ensures Inv(Claiming(s, t, s.threads[t].pc.table, s.threads[t].pc.i))
  {
    assert ThreadOK(s, t);
    var th := s.threads[t];
    var x, i, tb, k := th.pc.table, th.pc.i, s.tables[th.pc.table], th.op.key;
    var p := ProbeSlot(k, |tb|, i);
    if tb[p].key == EMPTY_KEY {
      ClaimOK(tb, k, i);
      ClaimedInv(s, t, p);
    } else {
      QuietPc(s, t, Probe(x, i));
    }
  }

  ghost function Claimed(s: State, t: nat, p: nat): State
    requires t < |s.threads| && s.threads[t].pc.Claim? && s.threads[t].pc.table < |s.tables| && p < |s.tables[s.threads[t].pc.table]|
  {
    var x := s.threads[t].pc.table;
    Put(SetSlot(s, x, p, s.tables[x][p].(key := s.threads[t].op.key)), t, Found(x, p))
  }

  lemma ClaimedInv(s: State, t: nat, p: nat)
    requires Inv(s) && t < |s.threads| && s.threads[t].pc.Claim? && InRange(s, t) && p < |s.tables[s.threads[t].pc.table]|
    requires var tb := s.tables[s.threads[t].pc.table];
      var tb' := tb[p := tb[p].(key := s.threads[t].op.key)];
      tb[p].key == EMPTY_KEY && TableOK(tb') && Evolves(tb, tb')
    ensures Inv(Claimed(s, t, p))
  {
    assert ThreadOK(s, t);
    var s' := Claimed(s, t, p);
    var x, k := s.threads[t].pc.table, s.threads[t].op.key;
    ClaimedForward(s, t, p);
    KeyWriteTables(s, s', x, p, k);
    PendsKept(s, s', t);
    ClaimedLocated(s, t, p);
  }

  lemma ClaimedLocated(s: State, t: nat, p: nat)
    requires Inv(s) && t < |s.threads| && s.threads[t].pc.Claim? && InRange(s, t) && p < |s.tables[s.threads[t].pc.table]|
    requires s.tables[s.threads[t].pc.table][p].key == EMPTY_KEY
    ensures var s' := Claimed(s, t, p); |s'.tables| >= 1 && forall l :: l in s'.bound ==> Located(s', l, s'.bound[l])
  {
    var s' := Claimed(s, t, p);
    forall l | l in s'.bound ensures Located(s', l, s'.bound[l]) {
      KeyWriteLocated(s, s', t, s.threads[t].pc.table, p, s.threads[t].op.key, l, s.bound[l]);
    }
  }

  lemma ClaimedForward(s: State, t: nat, p: nat)
    requires Inv(s) && t < |s.threads| && s.threads[t].pc.Claim? && InRange(s, t) && p < |s.tables[s.threads[t].pc.table]|
    requires var tb := s.tables[s.threads[t].pc.table];
      tb[p].key == EMPTY_KEY && Evolves(tb, tb[p := tb[p].(key := s.threads[t].op.key)])
    ensures Forward(s, Claimed(s, t, p)) && ThreadsOK(Claimed(s, t, p)) && Phase(Claimed(s, t, p))
  {
    assert ThreadOK(s, t);
    var s', th := Claimed(s, t, p), s.threads[t];
    SlotForward(s, s', th.pc.table, p, s'.tables[th.pc.table][p]);
    KnownInForward(s, s', th, th.pc.table);
    ThreadsForward(s, s', t);
    PhaseSame(s, s', t);
  }

  /** A claimed key changes no value. */
  lemma KeyWriteTables(s: State, s': State, x: nat, p: nat, k: Key)
    requires TablesOK(s) && BoundOK(s) && x < |s.tables| && p < |s.tables[x]| && s.tables[x][p].key == EMPTY_KEY
    requires s'.tables == s.tables[x := s.tables[x][p := s.tables[x][p].(key := k)]] && TableOK(s'.tables[x])
    requires s'.current == s.current && s'.bound == s.bound
    ensures TablesOK(s') && BoundOK(s')
    ensures s.current.None? && MovedOK(s) && x + 2 == |s.tables| ==> MovedOK(s')
    ensures s.current.Some? ==> MovedOK(s')
  {
    assert TableOK(s.tables[x]);
    forall y | 0 <= y < Visible(s') ensures AllSealed(s'.tables[y]) {
      assert AllSealed(s.tables[y]);
    }
    if s.current.None? && MovedOK(s) && x + 2 == |s.tables| {
      forall q | 0 <= q < |Newest(s')| && Newest(s')[q].key != EMPTY_KEY
        ensures HasSlot(Previous(s'), Slot(Newest(s')[q].key, MIGRATE_VALUE))
      {
        HasSlotSet(Previous(s), p, s'.tables[x][p], Newest(s)[q].key, MIGRATE_VALUE);
      }
    }
  }

  lemma KeyWriteLocated(s: State, s': State, t: nat, x: nat, p: nat, k: Key, l: Key, v: Value)
    requires |s.tables| >= 1 && x < |s.tables| && p < |s.tables[x]| && s.tables[x][p].key == EMPTY_KEY
    requires s'.tables == s.tables[x := s.tables[x][p := s.tables[x][p].(key := k)]] && s'.current == s.current
    requires |s'.threads| == |s.threads| && t < |s.threads| && forall u :: 0 <= u < |s.threads| && u != t ==> s'.threads[u] == s.threads[u]
    requires Carries(s.threads[t].pc, l, v) ==> Carries(s'.threads[t].pc, l, v)
    requires l != EMPTY_KEY && Located(s, l, v)
    ensures Located(s', l, v)
  {
    if HasSlot(s.tables[x], Slot(l, v)) {
      HasSlotSet(s.tables[x], p, s'.tables[x][p], l, v);
    }
    if s.current.None? && Carried(s, l, v) {
      var u :| 0 <= u < |s.threads| && Carries(s.threads[u].pc, l, v);
      assert Carries(s'.threads[u].pc, l, v);
    }
  }

  ghost predicate SameSeals(tb: Table, tb': Table) {
    && |tb'| == |tb|
    && forall q :: 0 <= q < |tb| ==> (tb'[q].value == MIGRATE_VALUE <==> tb[q].value == MIGRATE_VALUE)
  }

  /** The seals of the old table and the chunks stay as they are. */
  lemma PendsKept(s: State, s': State, t: nat)
    requires SealOK(s) && |s'.threads| == |s.threads| && t < |s.threads|
    requires |s'.tables| == |s.tables| && s'.current == s.current && s'.taskPos == s.taskPos
    requires |s.tables| >= 2 ==> SameSeals(Previous(s), Previous(s'))
    requires forall u :: 0 <= u < |s.threads| && u != t ==> s'.threads[u] == s.threads[u]
    requires forall q: nat :: Pends(s'.threads[t].pc, q) == Pends(s.threads[t].pc, q)
    ensures SealOK(s')
  {
    forall q: nat ensures SomeonePends(s', q) == SomeonePends(s, q) {
      if SomeonePends(s, q) {
        var u :| 0 <= u < |s.threads| && Pends(s.threads[u].pc, q);
        assert Pends(s'.threads[u].pc, q);
      }
      if SomeonePends(s', q) {
        var u :| 0 <= u < |s'.threads| && Pends(s'.threads[u].pc, q);
        assert Pends(s.threads[u].pc, q);
      }
    }
  }

  // ----- the insertion that binds a key

  ghost function Filled(s: State, t: nat): State
    requires t < |s.threads| && s.threads[t].pc.Found? && InRange(s, t)
  {
    var th := s.threads[t];
    var x, p := th.pc.table, th.pc.p;
    Put(SetSlot(s, x, p, s.tables[x][p].(value := th.op.arg)), t, Returned(th.op.arg))
      .(bound := s.bound[th.op.key := th.op.arg])
  }

  lemma FillInv(s: State, t: nat)
    requires Inv(s) && t < |s.threads| && s.threads[t].pc.Found? && InRange(s, t) && s.threads[t].op.Insert?
    requires s.tables[s.threads[t].pc.table][s.threads[t].pc.p].value == EMPTY_VALUE && s.threads[t].op.arg != EMPTY_VALUE
    ensures Inv(Filled(s, t))
  {
    assert ThreadOK(s, t);
    FillIsFirst(s, t);
    FillForward(s, t);
    var s', th := Filled(s, t), s.threads[t];
    var x, p, v := th.pc.table, th.pc.p, th.op.arg;
    FillTables(s, s', x, p, v);
    PendsKept(s, s', t);
    HasSlotAt(s'.tables[x], p);
    forall l | l in s'.bound ensures Located(s', l, s'.bound[l]) {
      if l != th.op.key {
        ValueWriteLocated(s, s', t, x, p, v, l, s.bound[l]);
      }
    }
  }

  lemma FillForward(s: State, t: nat)
    requires Inv(s) && t < |s.threads| && s.threads[t].pc.Found? && InRange(s, t) && s.threads[t].op.Insert?
    requires s.tables[s.threads[t].pc.table][s.threads[t].pc.p].value == EMPTY_VALUE && s.threads[t].op.arg != EMPTY_VALUE
    ensures var s' := Filled(s, t); Forward(s, s') && ThreadsOK(s') && Phase(s') && TableOK(s'.tables[s.threads[t].pc.table])
  {
    assert ThreadOK(s, t);
    FillIsFirst(s, t);
    var s', th := Filled(s, t), s.threads[t];
    var x, p, v := th.pc.table, th.pc.p, th.op.arg;
    assert TableOK(s.tables[x]);
    ValueOK(s.tables[x], p, v);
    SlotForward(s, s', x, p, s'.tables[x][p]);
    ThreadsForward(s, s', t);
    PhaseSame(s, s', t);
  }

  lemma FillTables(s: State, s': State, x: nat, p: nat, v: Value)
    requires Phase(s) && TablesOK(s) && BoundOK(s) && MovedOK(s) && x == Visible(s) && p < |s.tables[x]|
    requires s.tables[x][p].value == EMPTY_VALUE && v > MIGRATE_VALUE
    requires s'.tables == s.tables[x := s.tables[x][p := s.tables[x][p].(value := v)]] && TableOK(s'.tables[x])
    requires s'.current == s.current && s.tables[x][p].key !in s.bound && s.tables[x][p].key != EMPTY_KEY
    requires s'.bound == s.bound[s.tables[x][p].key := v]
    ensures TablesOK(s') && BoundOK(s') && MovedOK(s')
    ensures |s.tables| >= 2 ==> SameSeals(Previous(s), Previous(s'))
  {
    forall y | 0 <= y < Visible(s') ensures AllSealed(s'.tables[y]) {
      assert AllSealed(s.tables[y]);
    }
    FillBinds(s, s', x, p, v);
    if s.current.None? { FillMoved(s, s', p, v); }
  }

  lemma FillBinds(s: State, s': State, x: nat, p: nat, v: Value)
    requires BoundOK(s) && x < |s.tables| && p < |s.tables[x]| && v > MIGRATE_VALUE
    requires s'.tables == s.tables[x := s.tables[x][p := s.tables[x][p].(value := v)]]
    requires s.tables[x][p].key !in s.bound && s.tables[x][p].key != EMPTY_KEY
    requires s'.bound == s.bound[s.tables[x][p].key := v]
    ensures BoundOK(s')
  {
  }

  lemma FillMoved(s: State, s': State, p: nat, v: Value)
    requires MovedOK(s) && s.current.None? && |s.tables| >= 2 && p < |Previous(s)|
    requires Previous(s)[p].value == EMPTY_VALUE && s'.current == s.current
    requires s'.tables == s.tables[|s.tables| - 2 := Previous(s)[p := Previous(s)[p].(value := v)]]
    ensures MovedOK(s')
  {
    forall q | 0 <= q < |Newest(s')| && Newest(s')[q].key != EMPTY_KEY
      ensures HasSlot(Previous(s'), Slot(Newest(s')[q].key, MIGRATE_VALUE))
    {
      HasSlotSet(Previous(s), p, Previous(s')[p], Newest(s)[q].key, MIGRATE_VALUE);
    }
  }

  lemma ValueWriteLocated(s: State, s': State, t: nat, x: nat, p: nat, v: Value, l: Key, w: Value)
    requires |s.tables| >= 1 && x < |s.tables| && p < |s.tables[x]| && s.tables[x][p] != Slot(l, w)
    requires s'.tables == s.tables[x := s.tables[x][p := s.tables[x][p].(value := v)]] && s'.current == s.current
    requires |s'.threads| == |s.threads| && t < |s.threads| && forall u :: 0 <= u < |s.threads| && u != t ==> s'.threads[u] == s.threads[u]
    requires Carries(s.threads[t].pc, l, w) ==> Carries(s'.threads[t].pc, l, w) || HasSlot(Newest(s'), Slot(l, w))
    requires Located(s, l, w)
    ensures Located(s', l, w)
  {
    if HasSlot(s.tables[x], Slot(l, w)) {
      HasSlotSet(s.tables[x], p, s'.tables[x][p], l, w);
    }
    if s.current.None? && Carried(s, l, w) {
      var u :| 0 <= u < |s.threads| && Carries(s.threads[u].pc, l, w);
      if u != t || Carries(s'.threads[t].pc, l, w) { assert Carries(s'.threads[u].pc, l, w); }
    }
  }

  lemma FoundInv(s: State, t: nat)
    requires Inv(s) && t < |s.threads| && s.threads[t].pc.Found? && InRange(s, t)
    ensures Inv(Accessing(s, t, s.threads[t].pc.table, s.threads[t].pc.p))
  {
    var th := s.threads[t];
    var seen := s.tables[th.pc.table][th.pc.p].value;
    if th.op.Find? {
      FindAccessInv(s, t);
    } else if seen != EMPTY_VALUE {
      InsertSeesInv(s, t);
    } else if th.op.arg == EMPTY_VALUE {
      InsertEmptyInv(s, t);
    } else {
      FillInv(s, t);
    }
  }

  // ----- joining and starting a migration

  lemma JoinInv(s: State, t: nat)
    requires Inv(s) && t < |s.threads| && s.threads[t].pc.WantMigrate?
    ensures Inv(Joining(s, t, s.threads[t].pc.ptr))
  {
    var ptr := s.threads[t].pc.ptr;
    if s.current != ptr {
      QuietPc(s, t, Protect);
    } else if s.from.Some? {
      JoinRunning(s, t);
    } else {
      StartMigration(s, t);
    }
  }

  lemma JoinRunning(s: State, t: nat)
    requires Inv(s) && t < |s.threads| && s.threads[t].pc.WantMigrate? && s.current == s.threads[t].pc.ptr && s.from.Some?
    ensures Inv(Joining(s, t, s.threads[t].pc.ptr))
  {
    assert ThreadOK(s, t);
    var s' := Joining(s, t, s.threads[t].pc.ptr);
    ThreadsForward(s, s', t);
    MigrantsChange(s, s', t);
    assert t in Migrants(s');
    PendsKept(s, s', t);
    forall k | k in s'.bound ensures Located(s', k, s'.bound[k]) {
      LocatedSame(s, s', t, k, s.bound[k]);
    }
  }

  /** Starting a migration: nothing is sealed yet, and the new table is empty. */
  lemma StartMigration(s: State, t: nat)
    requires Inv(s) && t < |s.threads| && s.threads[t].pc.WantMigrate? && s.current == s.threads[t].pc.ptr && s.from.None?
    ensures Inv(Joining(s, t, s.threads[t].pc.ptr))
  {
    assert ThreadOK(s, t);
    var s' := Joining(s, t, s.threads[t].pc.ptr);
    assert s.migrateCnt == 0 && s.current == Some(|s.tables| - 1);
    assert Previous(s') == Newest(s) && Newest(s') == NewTable(2 * |Newest(s)|);
    MigrantsChange(s, s', t);
    assert Migrants(s') == {t} by {
      assert Migrants(s') - {t} == {};
      assert t in Migrants(s');
    }
    StartTables(s, s');
    StartThreads(s, s', t);
    StartSeals(s, s', t);
    forall k | k in s'.bound ensures Located(s', k, s'.bound[k]) {
      assert Located(s, k, s.bound[k]);
    }
  }

  lemma StartTables(s: State, s': State)
    requires Phase(s) && TablesOK(s) && BoundOK(s) && s.current.Some?
    requires s'.tables == s.tables + [NewTable(2 * |Newest(s)|)] && s'.current.None? && s'.bound == s.bound
    ensures TablesOK(s') && BoundOK(s') && MovedOK(s')
  {
    assert TableOK(Newest(s));
    NewTableOK(2 * |Newest(s)|);
    forall x | 0 <= x < |s'.tables| ensures TableOK(s'.tables[x]) {
      if x < |s.tables| { assert TableOK(s.tables[x]); }
    }
    forall x | 0 <= x < Visible(s') ensures AllSealed(s'.tables[x]) {
      assert AllSealed(s.tables[x]);
    }
  }

  lemma StartThreads(s: State, s': State, t: nat)
    requires Phase(s) && ThreadsOK(s) && TablesOK(s) && s.current.Some? && t < |s.threads|
    requires s'.tables == s.tables + [NewTable(2 * |Newest(s)|)] && s'.current.None? && s'.bound == s.bound
    requires exists g :: s'.threads == s.threads[t := s.threads[t].(pc := GrabTask(g))]
    requires s.threads[t].pc.WantMigrate?
    ensures ThreadsOK(s')
  {
    assert TableOK(Newest(s));
    forall x | 0 <= x < |s'.tables| ensures |s'.tables[x]| > 0 {
      assert x < |s.tables| ==> TableOK(s.tables[x]);
    }
    forall u | 0 <= u < |s'.threads| ensures ThreadOK(s', u) {
      assert ThreadOK(s, u);
      assert u !in Migrants(s);
    }
  }

  lemma StartSeals(s: State, s': State, t: nat)
    requires Phase(s) && TablesOK(s) && s.current.Some? && t < |s.threads| && s'.taskPos == 0
    requires s'.tables == s.tables + [NewTable(2 * |Newest(s)|)]
    requires exists g :: s'.threads == s.threads[t := s.threads[t].(pc := GrabTask(g))]
    ensures SealOK(s')
  {
    assert Previous(s') == Newest(s);
    forall u, q: nat | 0 <= u < |s'.threads| ensures !Pends(s'.threads[u].pc, q) {
      assert u !in Migrants(s);
    }
  }

  // ----- migrating

  lemma InMigration(s: State, t: nat)
    requires Inv(s) && t < |s.threads| && Migrating(s.threads[t].pc)
    ensures s.current.None? && |s.tables| >= 2 && s.from == Some(|s.tables| - 2) && s.to == Some(|s.tables| - 1)
    ensures TableOK(Previous(s)) && TableOK(Newest(s)) && MigrantOK(s, s.threads[t].pc) && t in Migrants(s)
  {
    assert t in Migrants(s);
    assert ThreadOK(s, t);
  }

  lemma GrabInv(s: State, t: nat)
    requires Inv(s) && t < |s.threads| && s.threads[t].pc.GrabTask? && InRange(s, t)
    ensures Inv(Grabbing(s, t, s.threads[t].pc.gen))
  {
    InMigration(s, t);
    assert ThreadOK(s, t);
    var s' := Grabbing(s, t, s.threads[t].pc.gen);
    assert Forward(s, s');
    ThreadsForward(s, s', t);
    PhaseSame(s, s', t);
    GrabSeals(s, s', t);
    forall k | k in s'.bound ensures Located(s', k, s'.bound[k]) {
      LocatedSame(s, s', t, k, s.bound[k]);
    }
  }

  /** A chunk that is handed out goes from untouched to pending. */
  lemma GrabSeals(s: State, s': State, t: nat)
    requires SealOK(s) && s.current.None? && |s.tables| >= 2 && s'.tables == s.tables && s'.current == s.current
    requires t < |s.threads| && s.threads[t].pc.GrabTask? && s'.taskPos == s.taskPos + 1
    requires |s'.threads| == |s.threads| && forall u :: 0 <= u < |s.threads| && u != t ==> s'.threads[u] == s.threads[u]
    requires forall q: nat :: Pends(s'.threads[t].pc, q) <==>
      s.taskPos * CHUNK_SIZE <= q < s.taskPos * CHUNK_SIZE + CHUNK_SIZE && q < |Previous(s)|
    ensures SealOK(s')
  {
    var begin := s.taskPos * CHUNK_SIZE;
    assert s'.taskPos * CHUNK_SIZE == begin + CHUNK_SIZE;
    forall q: nat | begin <= q < begin + CHUNK_SIZE && q < |Previous(s)| ensures SomeonePends(s', q) {
      assert Pends(s'.threads[t].pc, q);
    }
    forall q: nat | q < begin ensures SomeonePends(s', q) == SomeonePends(s, q) {
      if SomeonePends(s, q) {
        var u :| 0 <= u < |s.threads| && Pends(s.threads[u].pc, q);
        assert Pends(s'.threads[u].pc, q);
      }
      if SomeonePends(s', q) {
        var u :| 0 <= u < |s'.threads| && Pends(s'.threads[u].pc, q);
        assert Pends(s.threads[u].pc, q);
      }
    }
  }

  ghost function Sealed(s: State, t: nat): State
    requires t < |s.threads| && s.threads[t].pc.Seal? && InRange(s, t)
  {
    Sealing(s, t, s.threads[t].pc.gen, s.threads[t].pc.i, s.threads[t].pc.end)
  }

  lemma SealInv(s: State, t: nat)
    requires Inv(s) && t < |s.threads| && s.threads[t].pc.Seal? && InRange(s, t)
    ensures Inv(Sealed(s, t))
  {
    InMigration(s, t);
    SealForward(s, t);
    SealLocated(s, t);
    var s', i := Sealed(s, t), s.threads[t].pc.i;
    assert Pends(s.threads[t].pc, i);
    assert SomeonePends(s, i);
    SealTables(s, s', i);
    SealSeals(s, s', t, i);
  }

  /** The tables evolve, and every thread and the phase stay right. */
  lemma SealForward(s: State, t: nat)
    requires Inv(s) && t < |s.threads| && s.threads[t].pc.Seal? && InRange(s, t)
    ensures Forward(s, Sealed(s, t)) && ThreadsOK(Sealed(s, t)) && Phase(Sealed(s, t)) && TableOK(Previous(Sealed(s, t)))
  {
    InMigration(s, t);
    assert ThreadOK(s, t);
    var s' := Sealed(s, t);
    var x, i := |s.tables| - 2, s.threads[t].pc.i;
    ValueOK(Previous(s), i, MIGRATE_VALUE);
    SlotForward(s, s', x, i, s'.tables[x][i]);
    HasSlotAt(Previous(s'), i);
    ThreadsForward(s, s', t);
    PhaseSame(s, s', t);
  }

  /** The sealed binding is in the thread's hands, the others stay where they are. */
  lemma SealLocated(s: State, t: nat)
    requires Inv(s) && t < |s.threads| && s.threads[t].pc.Seal? && InRange(s, t)
    ensures var s' := Sealed(s, t); |s'.tables| >= 1 && forall l :: l in s'.bound ==> Located(s', l, s'.bound[l])
  {
    InMigration(s, t);
    var s', x, i := Sealed(s, t), |s.tables| - 2, s.threads[t].pc.i;
    forall l | l in s'.bound ensures Located(s', l, s'.bound[l]) {
      if Previous(s)[i] != Slot(l, s.bound[l]) {
        ValueWriteLocated(s, s', t, x, i, MIGRATE_VALUE, l, s.bound[l]);
      } else {
        assert Carries(s'.threads[t].pc, l, s.bound[l]);
      }
    }
  }

  lemma SealTables(s: State, s': State, i: nat)
    requires TablesOK(s) && BoundOK(s) && MovedOK(s) && s.current.None? && |s.tables| >= 2 && i < |Previous(s)|
    requires s'.tables == s.tables[|s.tables| - 2 := Previous(s)[i := Previous(s)[i].(value := MIGRATE_VALUE)]]
    requires s'.current.None? && s'.bound == s.bound && TableOK(Previous(s')) && Evolves(Previous(s), Previous(s'))
    ensures TablesOK(s') && BoundOK(s') && MovedOK(s')
  {
    forall y | 0 <= y < Visible(s') ensures AllSealed(s'.tables[y]) {
      assert AllSealed(s.tables[y]);
    }
    forall q | 0 <= q < |Newest(s')| && Newest(s')[q].key != EMPTY_KEY
      ensures HasSlot(Previous(s'), Slot(Newest(s')[q].key, MIGRATE_VALUE))
    {
      SlotEvolves(Previous(s), Previous(s'), Newest(s)[q].key, MIGRATE_VALUE);
    }
  }

  lemma SealSeals(s: State, s': State, t: nat, i: nat)
    requires SealOK(s) && s.current.None? && |s.tables| >= 2 && |s'.tables| == |s.tables| && s'.current == s.current
    requires t < |s.threads| && s'.taskPos == s.taskPos && i < |Previous(s)| && Pends(s.threads[t].pc, i)
    requires Previous(s') == Previous(s)[i := Previous(s)[i].(value := MIGRATE_VALUE)]
    requires |s'.threads| == |s.threads| && forall u :: 0 <= u < |s.threads| && u != t ==> s'.threads[u] == s.threads[u]
    requires forall q: nat :: Pends(s'.threads[t].pc, q) <==> Pends(s.threads[t].pc, q) && q != i
    ensures SealOK(s')
  {
    forall q: nat ensures SomeonePends(s', q) == (SomeonePends(s, q) && q != i) {
      if SomeonePends(s, q) && q != i {
        var u :| 0 <= u < |s.threads| && Pends(s.threads[u].pc, q);
        assert Pends(s'.threads[u].pc, q);
      }
      if SomeonePends(s', q) {
        var u :| 0 <= u < |s'.threads| && Pends(s'.threads[u].pc, q);
        assert Pends(s.threads[u].pc, q);
      }
    }
  }

  /** A step inside with_value on the new table that only moves control. */
  lemma MovePc(s: State, t: nat, pc: Pc)
    requires Inv(s) && t < |s.threads| && (s.threads[t].pc.MoveProbe? || s.threads[t].pc.MoveClaim?)
    requires pc.MoveProbe? || pc.MoveClaim? || pc.MoveStore?
    requires pc.i == s.threads[t].pc.i && pc.end == s.threads[t].pc.end && pc.k == s.threads[t].pc.k && pc.v == s.threads[t].pc.v
    requires |s.tables| >= 2 && MigrantOK(s, pc)
    ensures Inv(Put(s, t, pc))
  {
    InMigration(s, t);
    assert ThreadOK(s, t);
    MigrantSame(s, t, pc);
    QuietStep(s, Put(s, t, pc), t);
  }

  lemma MigrantSame(s: State, t: nat, pc: Pc)
    requires t < |s.threads| && |s.tables| >= 2 && (forall x :: 0 <= x < |s.tables| ==> |s.tables[x]| > 0) && MigrantOK(s, pc)
    ensures MigrantOK(Put(s, t, pc), pc)
  {
  }

  lemma MoveProbeInv(s: State, t: nat)
    requires Inv(s) && t < |s.threads| && s.threads[t].pc.MoveProbe? && InRange(s, t)
    ensures var pc := s.threads[t].pc; Inv(MoveProbing(s, t, pc.gen, pc.i, pc.end, pc.k, pc.v, pc.j))
  {
    InMigration(s, t);
    var pc := s.threads[t].pc;
    if pc.j >= ProbeLimit(|Newest(s)|) {
      CrashInv(s);
      assert MoveProbing(s, t, pc.gen, pc.i, pc.end, pc.k, pc.v, pc.j) == s.(crashed := true);
    } else {
      MoveProbePc(s, t);
      assert MoveProbing(s, t, pc.gen, pc.i, pc.end, pc.k, pc.v, pc.j) == Put(s, t, MovedOn(Newest(s), pc));
    }
  }

  ghost function MovedOn(to: Table, pc: Pc): Pc
    requires pc.MoveProbe? && |to| > 0
  {
    MoveNext(to, pc.gen, pc.i, pc.end, pc.k, pc.v, pc.j)
  }

  lemma MoveProbePc(s: State, t: nat)
    requires Inv(s) && t < |s.threads| && s.threads[t].pc.MoveProbe?
    requires |s.tables| >= 2 && |Newest(s)| > 0 && s.threads[t].pc.j < ProbeLimit(|Newest(s)|)
    ensures Inv(Put(s, t, MovedOn(Newest(s), s.threads[t].pc)))
  {
    MoveNextOK(s, t);
    MovePc(s, t, MovedOn(Newest(s), s.threads[t].pc));
  }

  lemma MoveNextOK(s: State, t: nat)
    requires ThreadsOK(s) && t < |s.threads| && s.threads[t].pc.MoveProbe?
    requires |s.tables| >= 2 && s.threads[t].pc.j < ProbeLimit(|Newest(s)|)
    ensures MigrantOK(s, MovedOn(Newest(s), s.threads[t].pc))
  {
    assert ThreadOK(s, t);
  }

  lemma CrashInv(s: State)
    requires Inv(s)
    ensures Inv(s.(crashed := true))
  {
    var s' := s.(crashed := true);
    assert Migrants(s') == Migrants(s);
    CrashSeals(s);
    CrashThreads(s);
    forall k | k in s'.bound ensures Located(s', k, s'.bound[k]) {
      assert Located(s, k, s.bound[k]);
      assert Carried(s, k, s.bound[k]) ==> Carried(s', k, s.bound[k]);
    }
  }

  lemma CrashSeals(s: State)
    requires SealOK(s)
    ensures SealOK(s.(crashed := true))
  {
    forall q: nat ensures SomeonePends(s.(crashed := true), q) == SomeonePends(s, q) {
    }
  }

  lemma CrashThreads(s: State)
    requires ThreadsOK(s)
    ensures ThreadsOK(s.(crashed := true))
  {
    forall t | 0 <= t < |s.threads| ensures ThreadOK(s.(crashed := true), t) {
      assert ThreadOK(s, t);
    }
  }

  lemma MoveClaimInv(s: State, t: nat)
    requires Inv(s) && t < |s.threads| && s.threads[t].pc.MoveClaim? && InRange(s, t)
    ensures var pc := s.threads[t].pc; Inv(MoveClaiming(s, t, pc.gen, pc.i, pc.end, pc.k, pc.v, pc.j))
  {
    InMigration(s, t);
    assert ThreadOK(s, t);
    var pc, to := s.threads[t].pc, Newest(s);
    var p := ProbeSlot(pc.k, |to|, pc.j);
    if to[p].key == EMPTY_KEY {
      ClaimOK(to, pc.k, pc.j);
      MoveClaimedInv(s, t, p);
    } else {
      MovePc(s, t, MoveProbe(pc.gen, pc.i, pc.end, pc.k, pc.v, pc.j));
    }
  }

  ghost function MoveClaimed(s: State, t: nat, p: nat): State
    requires t < |s.threads| && s.threads[t].pc.MoveClaim? && |s.tables| >= 1 && p < |Newest(s)|
  {
    var pc := s.threads[t].pc;
    Put(SetSlot(s, |s.tables| - 1, p, Newest(s)[p].(key := pc.k)), t, MoveStore(pc.gen, pc.i, pc.end, pc.k, pc.v, p))
  }

  lemma MoveClaimedInv(s: State, t: nat, p: nat)
    requires Inv(s) && t < |s.threads| && s.threads[t].pc.MoveClaim? && InRange(s, t) && p < |Newest(s)|
    requires Newest(s)[p].key == EMPTY_KEY
    requires var to' := Newest(s)[p := Newest(s)[p].(key := s.threads[t].pc.k)]; TableOK(to') && Evolves(Newest(s), to')
    ensures Inv(MoveClaimed(s, t, p))
  {
    InMigration(s, t);
    var s' := MoveClaimed(s, t, p);
    MoveClaimedForward(s, t, p);
    KeyWriteTables(s, s', |s.tables| - 1, p, s.threads[t].pc.k);
    MoveClaimedMoved(s, t, p);
    PendsKept(s, s', t);
    MoveClaimedLocated(s, t, p);
  }

  lemma MoveClaimedLocated(s: State, t: nat, p: nat)
    requires Inv(s) && t < |s.threads| && s.threads[t].pc.MoveClaim? && InRange(s, t) && p < |Newest(s)|
    requires Newest(s)[p].key == EMPTY_KEY
    ensures var s' := MoveClaimed(s, t, p); |s'.tables| >= 1 && forall l :: l in s'.bound ==> Located(s', l, s'.bound[l])
  {
    var s' := MoveClaimed(s, t, p);
    forall l | l in s'.bound ensures Located(s', l, s'.bound[l]) {
      KeyWriteLocated(s, s', t, |s.tables| - 1, p, s.threads[t].pc.k, l, s.bound[l]);
    }
  }

  lemma MoveClaimedForward(s: State, t: nat, p: nat)
    requires Inv(s) && t < |s.threads| && s.threads[t].pc.MoveClaim? && InRange(s, t) && p < |Newest(s)|
    requires Newest(s)[p].key == EMPTY_KEY && Evolves(Newest(s), Newest(s)[p := Newest(s)[p].(key := s.threads[t].pc.k)])
    ensures var s' := MoveClaimed(s, t, p); Forward(s, s') && ThreadsOK(s') && Phase(s')
  {
    InMigration(s, t);
    assert ThreadOK(s, t);
    var s', pc, x := MoveClaimed(s, t, p), s.threads[t].pc, |s.tables| - 1;
    SlotForward(s, s', x, p, s'.tables[x][p]);
    CarryForward(s, s', pc.k, pc.v);
    ThreadsForward(s, s', t);
    PhaseSame(s, s', t);
  }

  lemma MoveClaimedMoved(s: State, t: nat, p: nat)
    requires Inv(s) && t < |s.threads| && s.threads[t].pc.MoveClaim? && InRange(s, t) && p < |Newest(s)|
    ensures MovedOK(MoveClaimed(s, t, p))
  {
    InMigration(s, t);
    var s' := MoveClaimed(s, t, p);
    forall q | 0 <= q < |Newest(s')| && Newest(s')[q].key != EMPTY_KEY
      ensures HasSlot(Previous(s'), Slot(Newest(s')[q].key, MIGRATE_VALUE))
    {
      if q != p { assert Newest(s')[q] == Newest(s)[q]; }
    }
  }

  /** What the new table's slot for a carried key can hold. */
  lemma StoreSlotValue(s: State, t: nat)
    requires Inv(s) && t < |s.threads| && s.threads[t].pc.MoveStore? && InRange(s, t)
    ensures |s.tables| >= 2 && s.threads[t].pc.p < |Newest(s)| && Newest(s)[s.threads[t].pc.p].key == s.threads[t].pc.k
    ensures var v := Newest(s)[s.threads[t].pc.p].value; v == EMPTY_VALUE || v == s.threads[t].pc.v
  {
    InMigration(s, t);
  }

  ghost function MoveStored(s: State, t: nat): State
    requires t < |s.threads| && s.threads[t].pc.MoveStore? && InRange(s, t)
  {
    var pc := s.threads[t].pc;
    MoveStoring(s, t, pc.gen, pc.i, pc.end, pc.v, pc.p)
  }

  lemma MoveStoreInv(s: State, t: nat)
    requires Inv(s) && t < |s.threads| && s.threads[t].pc.MoveStore? && InRange(s, t)
    ensures Inv(MoveStored(s, t))
  {
    InMigration(s, t);
    StoreSlotValue(s, t);
    MoveStoreForward(s, t);
    var s', pc := MoveStored(s, t), s.threads[t].pc;
    MoveStoredThread(s, s', t);
    StoreTables(s, s', pc.p, pc.v);
    PendsKept(s, s', t);
    MoveStoreLocated(s, t);
  }

  /** The moved binding is in the new table now. */
  lemma MoveStoreLocated(s: State, t: nat)
    requires Inv(s) && t < |s.threads| && s.threads[t].pc.MoveStore? && InRange(s, t)
    ensures var s' := MoveStored(s, t); |s'.tables| >= 1 && forall l :: l in s'.bound ==> Located(s', l, s'.bound[l])
  {
    InMigration(s, t);
    StoreSlotValue(s, t);
    var s', pc, x := MoveStored(s, t), s.threads[t].pc, |s.tables| - 1;
    HasSlotAt(Newest(s'), pc.p);
    forall l | l in s'.bound ensures Located(s', l, s'.bound[l]) {
      if Newest(s)[pc.p] != Slot(l, s.bound[l]) {
        ValueWriteLocated(s, s', t, x, pc.p, pc.v, l, s.bound[l]);
      }
    }
  }

  lemma MoveStoreForward(s: State, t: nat)
    requires Inv(s) && t < |s.threads| && s.threads[t].pc.MoveStore? && InRange(s, t)
    ensures var s' := MoveStored(s, t); Forward(s, s') && ThreadsOK(s') && Phase(s') && TableOK(Newest(s'))
  {
    InMigration(s, t);
    StoreSlotValue(s, t);
    assert ThreadOK(s, t);
    var s', pc, x := MoveStored(s, t), s.threads[t].pc, |s.tables| - 1;
    ValueOK(Newest(s), pc.p, pc.v);
    SlotForward(s, s', x, pc.p, s'.tables[x][pc.p]);
    MoveStoredThread(s, s', t);
    ThreadsForward(s, s', t);
    PhaseSame(s, s', t);
  }

  lemma MoveStoredThread(s: State, s': State, t: nat)
    requires Inv(s) && t < |s.threads| && s.threads[t].pc.MoveStore? && InRange(s, t)
    requires var pc := s.threads[t].pc; s' == MoveStoring(s, t, pc.gen, pc.i, pc.end, pc.v, pc.p)
    requires forall x :: 0 <= x < |s'.tables| ==> |s'.tables[x]| > 0
    ensures ThreadOK(s', t)
    ensures forall q: nat :: Pends(s'.threads[t].pc, q) == Pends(s.threads[t].pc, q)
  {
    InMigration(s, t);
    assert ThreadOK(s, t);
    var pc := s.threads[t].pc;
    if pc.i + 1 < pc.end {
      assert Pends(pc, pc.end - 1);
    }
  }

  lemma StoreTables(s: State, s': State, p: nat, v: Value)
    requires TablesOK(s) && BoundOK(s) && MovedOK(s) && s.current.None? && |s.tables| >= 2 && p < |Newest(s)|
    requires v > MIGRATE_VALUE && Newest(s)[p].key in s.bound && s.bound[Newest(s)[p].key] == v
    requires s'.tables == s.tables[|s.tables| - 1 := Newest(s)[p := Newest(s)[p].(value := v)]]
    requires s'.current.None? && s'.bound == s.bound && TableOK(Newest(s'))
    ensures TablesOK(s') && BoundOK(s') && MovedOK(s')
  {
    forall y | 0 <= y < Visible(s') ensures AllSealed(s'.tables[y]) {
      assert AllSealed(s.tables[y]);
    }
    forall q | 0 <= q < |Newest(s')| && Newest(s')[q].key != EMPTY_KEY
      ensures HasSlot(Previous(s'), Slot(Newest(s')[q].key, MIGRATE_VALUE))
    {
      assert Newest(s')[q].key == Newest(s)[q].key;
    }
  }

  // ----- leaving and finishing a migration

  lemma LeaveInv(s: State, t: nat)
    requires Inv(s) && t < |s.threads| && s.threads[t].pc.Leave?
    ensures Inv(Leaving(s, t, s.threads[t].pc.gen))
  {
    if s.migrateCnt == 1 {
      FinishMigration(s, t);
    } else {
      LeaveEarly(s, t);
    }
  }

  lemma LeaveEarly(s: State, t: nat)
    requires Inv(s) && t < |s.threads| && s.threads[t].pc.Leave? && s.migrateCnt != 1
    ensures Inv(Leaving(s, t, s.threads[t].pc.gen))
  {
    InMigration(s, t);
    assert ThreadOK(s, t);
    var s' := Leaving(s, t, s.threads[t].pc.gen);
    MigrantsChange(s, s', t);
    ThreadsForward(s, s', t);
    PendsKept(s, s', t);
    forall k | k in s'.bound ensures Located(s', k, s'.bound[k]) {
      LocatedSame(s, s', t, k, s.bound[k]);
    }
  }

  /** When the last thread leaves, every slot of the old table is sealed and nothing is in anybody's hands. */
  lemma AllMoved(s: State, t: nat)
    requires Inv(s) && t < |s.threads| && s.threads[t].pc.Leave? && s.migrateCnt == 1
    ensures s.current.None? && |s.tables| >= 2 && AllSealed(Previous(s))
    ensures forall u :: 0 <= u < |s.threads| && u != t ==> !Migrating(s.threads[u].pc)
    ensures forall k :: k in s.bound ==> HasSlot(Newest(s), Slot(k, s.bound[k]))
  {
    InMigration(s, t);
    assert Migrants(s) == {t} by {
      assert |Migrants(s) - {t}| == 0;
    }
    forall u | 0 <= u < |s.threads| && u != t ensures !Migrating(s.threads[u].pc) {
      assert u !in Migrants(s);
    }
    forall q | 0 <= q < |Previous(s)| ensures Previous(s)[q].value == MIGRATE_VALUE {
      assert !SomeonePends(s, q);
    }
    forall k | k in s.bound ensures HasSlot(Newest(s), Slot(k, s.bound[k])) {
      assert Located(s, k, s.bound[k]);
    }
  }

  lemma FinishMigration(s: State, t: nat)
    requires Inv(s) && t < |s.threads| && s.threads[t].pc.Leave? && s.migrateCnt == 1
    ensures Inv(Leaving(s, t, s.threads[t].pc.gen))
  {
    InMigration(s, t);
    AllMoved(s, t);
    var s' := Leaving(s, t, s.threads[t].pc.gen);
    MigrantsChange(s, s', t);
    assert Migrants(s') == {};
    forall x | 0 <= x < Visible(s') ensures AllSealed(s'.tables[x]) {
      assert x < Visible(s) ==> AllSealed(s.tables[x]);
    }
    forall u | 0 <= u < |s'.threads| ensures ThreadOK(s', u) {
      assert ThreadOK(s, u);
    }
  }

  // ----- whole runs

  lemma AdvanceInv(s: State, t: nat)
    requires Inv(s) && Enabled(s, t, Advance) && InRange(s, t)
    ensures Inv(Advancing(s, t))
  {
    match s.threads[t].pc
    case Protect => ProtectInv(s, t);
    case Probe(_, _) => ProbeInv(s, t);
    case Claim(_, _) => ClaimInv(s, t);
    case Found(_, _) => FoundInv(s, t);
    case WantMigrate(_) => JoinInv(s, t);
    case GrabTask(_) => GrabInv(s, t);
    case Seal(_, _, _) => SealInv(s, t);
    case MoveProbe(_, _, _, _, _, _) => MoveProbeInv(s, t);
    case MoveClaim(_, _, _, _, _, _) => MoveClaimInv(s, t);
    case MoveStore(_, _, _, _, _, _) => MoveStoreInv(s, t);
    case Leave(_) => LeaveInv(s, t);
    case Await(_) => AwaitInv(s, t);
    case _ =>
  }

  lemma StepInv(s: State, s': State)
    requires Inv(s) && Next(s, s')
    ensures Inv(s')
  {
    var t, a :| Enabled(s, t, a) && InRange(s, t) && s' == Do(s, t, a);
    match a
    case Call(op) => CallInv(s, t, op);
    case Return => ReturnInv(s, t);
    case Advance => AdvanceInv(s, t);
  }

  ghost predicate StepAt(run: seq<State>, i: int)
    requires 0 <= i < |run| - 1
  {
    Next(run[i], run[i + 1])
  }

  ghost predicate IsRun(run: seq<State>) {
    run != [] && Init(run[0]) && forall i :: 0 <= i < |run| - 1 ==> StepAt(run, i)
  }

  lemma {:induction false} RunInv(run: seq<State>, i: nat)
    requires IsRun(run) && i < |run|
    ensures Inv(run[i])
  {
    if i == 0 {
      InitInv(run[0]);
    } else {
      RunInv(run, i - 1);
      assert StepAt(run, i - 1);
      StepInv(run[i - 1], run[i]);
    }
  }

  lemma RunStep(run: seq<State>, i: nat)
    requires IsRun(run) && i + 1 < |run|
    ensures Inv(run[i]) && Next(run[i], run[i + 1])
  {
    RunInv(run, i);
    assert StepAt(run, i);
  }

  /** Only the insertion that fills a slot changes the history. */
  lemma OnlyFillBinds(s: State, t: nat)
    requires t < |s.threads| && InRange(s, t) && !s.threads[t].pc.Found?
    ensures Advancing(s, t).bound == s.bound
  {
    match s.threads[t].pc
    case Protect =>
    case Probe(_, _) =>
    case Claim(_, _) =>
    case WantMigrate(_) =>
    case GrabTask(_) =>
    case Seal(_, _, _) =>
    case _ =>
  }

  /** An access binds at most the call's own key, and only where the value is empty. */
  lemma AccessBinds(s: State, t: nat, x: nat, p: nat, k: Key)
    requires t < |s.threads| && x < |s.tables| && p < |s.tables[x]| && k in s.bound
    requires s.tables[x][p].value == EMPTY_VALUE ==> s.threads[t].op.key != k
    ensures var s' := Accessing(s, t, x, p); k in s'.bound && s'.bound[k] == s.bound[k]
  {
  }

  lemma FillKeeps(s: State, t: nat, k: Key)
    requires Inv(s) && t < |s.threads| && s.threads[t].pc.Found? && InRange(s, t) && k in s.bound
    ensures var s' := Accessing(s, t, s.threads[t].pc.table, s.threads[t].pc.p);
      k in s'.bound && s'.bound[k] == s.bound[k]
  {
    var x, p := s.threads[t].pc.table, s.threads[t].pc.p;
    if s.tables[x][p].value == EMPTY_VALUE { FillIsFirst(s, t); }
    AccessBinds(s, t, x, p, k);
  }

  lemma AdvanceBound(s: State, t: nat, k: Key)
    requires Inv(s) && t < |s.threads| && InRange(s, t) && k in s.bound
    ensures k in Advancing(s, t).bound && Advancing(s, t).bound[k] == s.bound[k]
  {
    if s.threads[t].pc.Found? {
      FillKeeps(s, t, k);
    } else {
      OnlyFillBinds(s, t);
    }
  }

  /** A binding is never changed. */
  lemma StepBound(s: State, s': State, k: Key)
    requires Inv(s) && Next(s, s') && k in s.bound
    ensures k in s'.bound && s'.bound[k] == s.bound[k]
  {
    var t, a :| Enabled(s, t, a) && InRange(s, t) && s' == Do(s, t, a);
    if a.Advance? {
      AdvanceBound(s, t, k);
    }
  }

  /** A step inside a call leaves every call's operation and what it knew. */
  ghost predicate SameCalls(s: State, s': State, t: nat)
    requires t < |s.threads|
  {
    && |s'.threads| == |s.threads|
    && (forall u :: 0 <= u < |s.threads| && u != t ==> s'.threads[u] == s.threads[u])
    && s'.threads[t].op == s.threads[t].op && s'.threads[t].known == s.threads[t].known
  }

  lemma AdvanceCalls(s: State, t: nat)
    requires t < |s.threads| && InRange(s, t)
    ensures SameCalls(s, Advancing(s, t), t)
  {
    match s.threads[t].pc
    case Probe(x, i) => ProbeCalls(s, t, x, i);
    case Claim(x, i) => ClaimCalls(s, t, x, i);
    case Found(x, p) => AccessCalls(s, t, x, p);
    case WantMigrate(ptr) => JoinCalls(s, t, ptr);
    case GrabTask(gen) => GrabCalls(s, t, gen);
    case Seal(gen, i, end) => SealCalls(s, t, gen, i, end);
    case MoveProbe(_, _, _, _, _, _) => MoveCalls(s, t);
    case MoveClaim(_, _, _, _, _, _) => MoveCalls(s, t);
    case MoveStore(_, _, _, _, _, _) => MoveCalls(s, t);
    case _ =>
  }

  lemma ProbeCalls(s: State, t: nat, x: nat, i: nat)
    requires t < |s.threads| && x < |s.tables| && |s.tables[x]| > 0
    ensures SameCalls(s, Probing(s, t, x, i), t)
  {
  }

  lemma ClaimCalls(s: State, t: nat, x: nat, i: nat)
    requires t < |s.threads| && x < |s.tables| && |s.tables[x]| > 0
    ensures SameCalls(s, Claiming(s, t, x, i), t)
  {
  }

  lemma AccessCalls(s: State, t: nat, x: nat, p: nat)
    requires t < |s.threads| && x < |s.tables| && p < |s.tables[x]|
    ensures SameCalls(s, Accessing(s, t, x, p), t)
  {
  }

  lemma JoinCalls(s: State, t: nat, ptr: Option<nat>)
    requires t < |s.threads|
    ensures SameCalls(s, Joining(s, t, ptr), t)
  {
  }

  lemma GrabCalls(s: State, t: nat, gen: nat)
    requires t < |s.threads| && s.from.Some? && s.from.value < |s.tables|
    ensures SameCalls(s, Grabbing(s, t, gen), t)
  {
  }

  lemma SealCalls(s: State, t: nat, gen: nat, i: nat, end: nat)
    requires t < |s.threads| && s.from.Some? && s.from.value < |s.tables| && i < |s.tables[s.from.value]|
    ensures SameCalls(s, Sealing(s, t, gen, i, end), t)
  {
  }

  lemma MoveCalls(s: State, t: nat)
    requires t < |s.threads| && InRange(s, t)
    requires s.threads[t].pc.MoveProbe? || s.threads[t].pc.MoveClaim? || s.threads[t].pc.MoveStore?
    ensures SameCalls(s, Advancing(s, t), t)
  {
    match s.threads[t].pc
    case MoveProbe(_, _, _, _, _, _) =>
    case MoveClaim(_, _, _, _, _, _) =>
    case _ =>
  }

  /** A call keeps its operation and what was known of its key when it began. */
  lemma StepCall(s: State, s': State, u: nat)
    requires Next(s, s') && u < |s.threads|
    ensures |s'.threads| == |s.threads|
    ensures s.threads[u].pc != Idle && s'.threads[u].pc != Idle ==>
      s'.threads[u].op == s.threads[u].op && s'.threads[u].known == s.threads[u].known
    ensures s.threads[u].pc == Idle && s'.threads[u].pc != Idle ==> s'.threads[u].known == Lookup(s, s'.threads[u].op.key)
  {
    var t, a :| Enabled(s, t, a) && InRange(s, t) && s' == Do(s, t, a);
    if a.Advance? {
      AdvanceCalls(s, t);
    }
  }

  lemma RunStepBound(run: seq<State>, i: nat, k: Key)
    requires IsRun(run) && i + 1 < |run| && k in run[i].bound
    ensures k in run[i + 1].bound && run[i + 1].bound[k] == run[i].bound[k]
  {
    RunStep(run, i);
    StepBound(run[i], run[i + 1], k);
  }

  lemma RunStepKeeps(run: seq<State>, i: nat, u: nat, k: Key)
    requires IsRun(run) && i + 1 < |run| && u < |run[i].threads| && k in run[i].bound
    requires run[i].threads[u].pc != Idle && run[i].threads[u].op.key == k ==> run[i].threads[u].known == Some(run[i].bound[k])
    ensures k in run[i + 1].bound && run[i + 1].bound[k] == run[i].bound[k] && u < |run[i + 1].threads|
    ensures run[i + 1].threads[u].pc != Idle && run[i + 1].threads[u].op.key == k ==>
      run[i + 1].threads[u].known == Some(run[i].bound[k])
  {
    RunStepBound(run, i, k);
    assert StepAt(run, i);
    StepCall(run[i], run[i + 1], u);
  }

  /** From a point where thread u is idle and k is bound on, u's calls on k know the binding. */
  lemma {:induction false} LaterCallsKnow(run: seq<State>, i: nat, j: nat, u: nat, k: Key)
    requires IsRun(run) && i <= j < |run| && u < |run[i].threads| && run[i].threads[u].pc == Idle && k in run[i].bound
    ensures k in run[j].bound && run[j].bound[k] == run[i].bound[k] && u < |run[j].threads|
    ensures run[j].threads[u].pc != Idle && run[j].threads[u].op.key == k ==> run[j].threads[u].known == Some(run[i].bound[k])
    decreases j
  {
    if i < j {
      LaterCallsKnow(run, i, j - 1, u, k);
      RunStepKeeps(run, j - 1, u, k);
    }
  }

  /**
   * Once some insert of k has returned a nonempty value, every call on k that begins later
   * and returns, returns that value.
   */
  lemma InsertedValueStays(run: seq<State>, i: nat, t: nat, m: nat, j: nat, u: nat)
    requires IsRun(run) && i <= m <= j < |run| && t < |run[i].threads| && u < |run[m].threads| && u < |run[j].threads|
    requires run[i].threads[t].op.Insert? && run[i].threads[t].pc.Returned? && run[i].threads[t].pc.result != EMPTY_VALUE
    requires run[m].threads[u].pc == Idle
    requires run[j].threads[u].pc.Returned? && run[j].threads[u].op.key == run[i].threads[t].op.key
    ensures run[j].threads[u].pc.result == run[i].threads[t].pc.result
  {
    var k := run[i].threads[t].op.key;
    RunInv(run, i);
    InsertBinds(run[i], t);
    BoundStays(run, i, m, k);
    LaterCallsKnow(run, m, j, u, k);
    RunInv(run, j);
    AnswerIsKnown(run[j], u);
  }

  lemma InsertBinds(s: State, t: nat)
    requires Inv(s) && t < |s.threads| && s.threads[t].op.Insert?
    requires s.threads[t].pc.Returned? && s.threads[t].pc.result != EMPTY_VALUE
    ensures s.threads[t].op.key in s.bound && s.bound[s.threads[t].op.key] == s.threads[t].pc.result
  {
    assert ThreadOK(s, t);
  }

  lemma AnswerIsKnown(s: State, u: nat)
    requires Inv(s) && u < |s.threads| && s.threads[u].pc.Returned? && s.threads[u].known.Some?
    ensures s.threads[u].pc.result == s.threads[u].known.value
  {
    assert ThreadOK(s, u);
  }

  lemma {:induction false} BoundStays(run: seq<State>, i: nat, m: nat, k: Key)
    requires IsRun(run) && i <= m < |run| && k in run[i].bound
    ensures k in run[m].bound && run[m].bound[k] == run[i].bound[k]
    decreases m
  {
    if i < m {
      BoundStays(run, i, m - 1, k);
      RunStepBound(run, m - 1, k);
    }
  }

  /** Every access of a reachable state is to a table and slot that are there. */
  lemma AccessesInRange(run: seq<State>, i: nat, t: nat)
    requires IsRun(run) && i < |run| && t < |run[i].threads|
    ensures InRange(run[i], t)
  {
    RunInv(run, i);
    InvInRange(run[i], t);
  }

  /** The checks of do_migrate and init_migrate hold whenever they are reached. */
  lemma MigrationChecks(run: seq<State>, i: nat, t: nat)
    requires IsRun(run) && i < |run| && t < |run[i].threads|
    requires run[i].threads[t].pc.WantMigrate? && run[i].current == run[i].threads[t].pc.ptr
    ensures run[i].from.None? ==> run[i].migrateCnt == 0 && run[i].current.Some? && run[i].current.value < |run[i].tables|
    ensures run[i].threads[t].pc.ptr.Some? ==> run[i].from.None?
  {
    RunInv(run, i);
  }

  // ----- waiting for the end of a migration

  /** A migrating thread works for the current generation; nobody waits for a later one. */
  ghost predicate GenAt(s: State, pc: Pc) {
    && (Migrating(pc) ==> pc.gen == s.generation && s.current.None?)
    && (pc.Await? ==> pc.gen <= s.generation && (pc.gen == s.generation ==> s.current.None?))
  }

  ghost predicate GenOK(s: State) {
    forall t :: 0 <= t < |s.threads| ==> GenAt(s, s.threads[t].pc)
  }

  ghost predicate SameGen(s: State, s': State, t: nat)
    requires t < |s.threads|
  {
    && SameCalls(s, s', t) && s'.generation == s.generation && s'.current == s.current
    && (Migrating(s'.threads[t].pc) ==> Migrating(s.threads[t].pc) && s'.threads[t].pc.gen == s.threads[t].pc.gen)
    && !s'.threads[t].pc.Await?
  }

  lemma GenQuiet(s: State, t: nat)
    requires t < |s.threads| && InRange(s, t) && s.threads[t].pc != Idle && !s.threads[t].pc.Returned?
    requires !s.threads[t].pc.WantMigrate? && !s.threads[t].pc.Leave?
    ensures SameGen(s, Advancing(s, t), t)
  {
    match s.threads[t].pc
    case Protect =>
    case Probe(_, _) =>
    case Claim(_, _) =>
    case Found(_, _) =>
    case GrabTask(_) => GenMigrates(s, t);
    case Seal(_, _, _) => GenMigrates(s, t);
    case MoveProbe(_, _, _, _, _, _) => GenMoves(s, t);
    case MoveClaim(_, _, _, _, _, _) => GenMoves(s, t);
    case MoveStore(_, _, _, _, _, _) => GenMoves(s, t);
    case _ =>
  }

  lemma GenMigrates(s: State, t: nat)
    requires t < |s.threads| && InRange(s, t) && (s.threads[t].pc.GrabTask? || s.threads[t].pc.Seal?)
    ensures SameGen(s, Advancing(s, t), t)
  {
  }

  lemma GenMoves(s: State, t: nat)
    requires t < |s.threads| && InRange(s, t)
    requires s.threads[t].pc.MoveProbe? || s.threads[t].pc.MoveClaim? || s.threads[t].pc.MoveStore?
    ensures SameGen(s, Advancing(s, t), t)
  {
    MoveCalls(s, t);
    match s.threads[t].pc
    case MoveProbe(_, _, _, _, _, _) =>
    case MoveClaim(_, _, _, _, _, _) =>
    case _ =>
  }

  lemma GenJoin(s: State, t: nat)
    requires Phase(s) && GenOK(s) && t < |s.threads| && s.threads[t].pc.WantMigrate?
    ensures GenOK(Joining(s, t, s.threads[t].pc.ptr))
  {
    var s' := Joining(s, t, s.threads[t].pc.ptr);
    forall u | 0 <= u < |s'.threads| ensures GenAt(s', s'.threads[u].pc) {
      assert GenAt(s, s.threads[u].pc);
    }
  }

  lemma OnlyMigrant(s: State, t: nat, u: nat)
    requires |Migrants(s)| == 1 && t in Migrants(s) && u < |s.threads| && u != t
    ensures !Migrating(s.threads[u].pc)
  {
    assert |Migrants(s) - {t}| == 0;
    assert u !in Migrants(s) - {t};
  }

  lemma GenLeave(s: State, t: nat)
    requires Phase(s) && GenOK(s) && t < |s.threads| && s.threads[t].pc.Leave?
    ensures GenOK(Leaving(s, t, s.threads[t].pc.gen))
  {
    var s' := Leaving(s, t, s.threads[t].pc.gen);
    assert GenAt(s, s.threads[t].pc);
    MigrantsChange(s, s', t);
    assert t in Migrants(s);
    forall u | 0 <= u < |s'.threads| ensures GenAt(s', s'.threads[u].pc) {
      assert GenAt(s, s.threads[u].pc);
      if s.migrateCnt == 1 && u != t {
        OnlyMigrant(s, t, u);
      }
    }
  }

  lemma GenStep(s: State, s': State)
    requires Phase(s) && GenOK(s) && Next(s, s')
    ensures GenOK(s')
  {
    var t: nat, a: Action :| Enabled(s, t, a) && InRange(s, t) && s' == Do(s, t, a);
    assert t < |s.threads|;
    assert GenAt(s, s.threads[t].pc);
    if a.Advance? {
      if s.threads[t].pc.WantMigrate? {
        GenJoin(s, t);
      } else if s.threads[t].pc.Leave? {
        GenLeave(s, t);
      } else {
        GenQuiet(s, t);
      }
    }
  }

  lemma {:induction false} RunGen(run: seq<State>, i: nat)
    requires IsRun(run) && i < |run|
    ensures GenOK(run[i])
  {
    if i > 0 {
      RunGen(run, i - 1);
      RunStep(run, i - 1);
      GenStep(run[i - 1], run[i]);
    }
  }

  /** While a thread must wait for the end of a migration, some thread is still working on it. */
  lemma NobodyWaitsInVain(run: seq<State>, i: nat, t: nat)
    requires IsRun(run) && i < |run| && t < |run[i].threads|
    requires run[i].threads[t].pc.Await? && run[i].generation == run[i].threads[t].pc.gen
    ensures exists u :: 0 <= u < |run[i].threads| && Migrating(run[i].threads[u].pc) && run[i].threads[u].pc.gen == run[i].generation
  {
    RunInv(run, i);
    RunGen(run, i);
    var s := run[i];
    assert GenAt(s, s.threads[t].pc);
    var u :| u in Migrants(s);
    assert GenAt(s, s.threads[u].pc);
  }
}
