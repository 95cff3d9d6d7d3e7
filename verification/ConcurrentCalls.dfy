/**
 * How calls of pxcutils/pxc/utils/ConcurrentHashTable.h go on: the tables double, a call asks for
 * a migration only where its key is sealed or no probed slot is left for it, and a call that runs
 * alone on a table with a slot for its key returns within twice the limit of the probe.
 */
module ConcurrentCalls {
  import opened ConcurrentHashMap

  // ----- what a step does to the tables

  /** Old tables evolve, and a new one has twice the size of the last. */
  ghost predicate TablesStep(s: State, s': State) {
    && 0 < |s.tables| <= |s'.tables| <= |s.tables| + 1
    && (forall x :: 0 <= x < |s.tables| ==> Evolves(s.tables[x], s'.tables[x]))
    && (|s'.tables| > |s.tables| ==> |s'.tables[|s.tables|]| == 2 * |s.tables[|s.tables| - 1]|)
  }

  lemma OneSlot(s: State, s': State, x: nat, p: nat, slot: Slot)
    requires x < |s.tables| && p < |s.tables[x]| && s'.tables == s.tables[x := s.tables[x][p := slot]]
    requires Evolves(s.tables[x], s.tables[x][p := slot])
    ensures TablesStep(s, s')
  {
  }

  lemma SameTables(s: State, s': State)
    requires |s.tables| > 0 && s'.tables == s.tables
    ensures TablesStep(s, s')
  {
  }

  lemma ClaimTables(s: State, t: nat)
    requires Inv(s) && t < |s.threads| && InRange(s, t) && s.threads[t].pc.Claim?
    ensures TablesStep(s, Advancing(s, t))
  {
    var k, x := s.threads[t].op.key, s.threads[t].pc.table;
    var p := ProbeSlot(k, |s.tables[x]|, s.threads[t].pc.i);
    if s.tables[x][p].key == EMPTY_KEY {
      OneSlot(s, Advancing(s, t), x, p, s.tables[x][p].(key := k));
    } else {
      SameTables(s, Advancing(s, t));
    }
  }

  lemma FoundTables(s: State, t: nat)
    requires Inv(s) && t < |s.threads| && InRange(s, t) && s.threads[t].pc.Found?
    ensures TablesStep(s, Advancing(s, t))
  {
    var th := s.threads[t];
    var x, p := th.pc.table, th.pc.p;
    if th.op.Insert? && s.tables[x][p].value == EMPTY_VALUE {
      OneSlot(s, Advancing(s, t), x, p, s.tables[x][p].(value := th.op.arg));
    } else {
      SameTables(s, Advancing(s, t));
    }
  }

  lemma JoinTables(s: State, t: nat)
    requires Inv(s) && t < |s.threads| && s.threads[t].pc.WantMigrate?
    ensures TablesStep(s, Advancing(s, t))
  {
  }

  lemma SealTables(s: State, t: nat)
    requires Inv(s) && t < |s.threads| && InRange(s, t) && s.threads[t].pc.Seal?
    ensures TablesStep(s, Advancing(s, t))
  {
    var x, i := s.from.value, s.threads[t].pc.i;
    OneSlot(s, Advancing(s, t), x, i, s.tables[x][i].(value := MIGRATE_VALUE));
  }

  lemma MoveTables(s: State, t: nat)
    requires Inv(s) && t < |s.threads| && InRange(s, t) && (s.threads[t].pc.MoveClaim? || s.threads[t].pc.MoveStore?)
    ensures TablesStep(s, Advancing(s, t))
  {
    var pc := s.threads[t].pc;
    if pc.MoveStore? {
      MoveStoreForward(s, t);
    } else {
      var x := s.to.value;
      var p := ProbeSlot(pc.k, |s.tables[x]|, pc.j);
      if s.tables[x][p].key == EMPTY_KEY {
        OneSlot(s, Advancing(s, t), x, p, s.tables[x][p].(key := pc.k));
      } else {
        SameTables(s, Advancing(s, t));
      }
    }
  }

  lemma AdvanceTables(s: State, t: nat)
    requires Inv(s) && t < |s.threads| && InRange(s, t)
    ensures TablesStep(s, Advancing(s, t))
  {
    match s.threads[t].pc
    case Claim(_, _) => ClaimTables(s, t);
    case Found(_, _) => FoundTables(s, t);
    case WantMigrate(_) => JoinTables(s, t);
    case Seal(_, _, _) => SealTables(s, t);
    case MoveClaim(_, _, _, _, _, _) => MoveTables(s, t);
    case MoveStore(_, _, _, _, _, _) => MoveTables(s, t);
    case _ => SameTables(s, Advancing(s, t));
  }

  lemma StepTables(s: State, s': State)
    requires Inv(s) && Next(s, s')
    ensures TablesStep(s, s')
  {
    var t, a :| Enabled(s, t, a) && InRange(s, t) && s' == Do(s, t, a);
    if a.Advance? { AdvanceTables(s, t); } else { SameTables(s, s'); }
  }

  // ----- the sizes

  function Pow2(n: nat): nat { if n == 0 then 1 else 2 * Pow2(n - 1) }

  predicate Doubled(tables: seq<Table>) { forall x :: 0 <= x < |tables| ==> |tables[x]| == Pow2(x) }

  lemma DoubledStep(s: State, s': State)
    requires Doubled(s.tables) && TablesStep(s, s')
    ensures Doubled(s'.tables)
  {
    forall x | 0 <= x < |s'.tables| ensures |s'.tables[x]| == Pow2(x) {
      if x < |s.tables| { assert Evolves(s.tables[x], s'.tables[x]); }
    }
  }

  /** The tables have one slot, two, four and so on. */
  lemma {:induction false} TablesDouble(run: seq<State>, i: nat)
    requires IsRun(run) && i < |run|
    ensures Doubled(run[i].tables)
  {
    if i > 0 {
      TablesDouble(run, i - 1);
      RunStep(run, i - 1);
      StepTables(run[i - 1], run[i]);
      DoubledStep(run[i - 1], run[i]);
    }
  }

  // ----- when a call asks for a migration

  /** In table x there is no way on for the call: its key is sealed, or every probed slot has another key. */
  ghost predicate NoWayOn(s: State, th: Thread, x: nat) {
    x < |s.tables| && |s.tables[x]| > 0
    && (HasSlot(s.tables[x], Slot(th.op.key, MIGRATE_VALUE))
        || (th.op.Insert? && Passed(s.tables[x], th.op.key, ProbeLimit(|s.tables[x]|))))
  }

  ghost predicate Reason(s: State, th: Thread) {
    th.pc.WantMigrate? && th.pc.ptr.Some? ==> NoWayOn(s, th, th.pc.ptr.value)
  }

  lemma ReasonKept(s: State, s': State, th: Thread)
    requires TablesStep(s, s') && Reason(s, th) && th.op.key != EMPTY_KEY
    ensures Reason(s', th)
  {
    if th.pc.WantMigrate? && th.pc.ptr.Some? {
      var x := th.pc.ptr.value;
      if HasSlot(s.tables[x], Slot(th.op.key, MIGRATE_VALUE)) {
        SlotEvolves(s.tables[x], s'.tables[x], th.op.key, MIGRATE_VALUE);
      } else {
        PassedEvolves(s.tables[x], s'.tables[x], th.op.key, ProbeLimit(|s.tables[x]|));
      }
    }
  }

  lemma ProbePc(s: State, t: nat)
    requires t < |s.threads| && InRange(s, t) && s.threads[t].pc.Probe?
    ensures var th, th' := s.threads[t], Advancing(s, t).threads[t];
      && |Advancing(s, t).threads| == |s.threads| && Advancing(s, t).tables == s.tables && th'.op == th.op
      && (th'.pc.WantMigrate? ==>
            var x := th.pc.table;
            var key := s.tables[x][ProbeSlot(th.op.key, |s.tables[x]|, th.pc.i)].key;
            th.op.Insert? && th'.pc.ptr == Some(x) && key != EMPTY_KEY && key != th.op.key && th.pc.i + 1 >= ProbeLimit(|s.tables[x]|))
  {
  }

  lemma ProbeReason(s: State, t: nat)
    requires Inv(s) && t < |s.threads| && InRange(s, t) && s.threads[t].pc.Probe?
    ensures t < |Advancing(s, t).threads| && Reason(Advancing(s, t), Advancing(s, t).threads[t])
  {
    assert ThreadOK(s, t);
    ProbePc(s, t);
    var th, th' := s.threads[t], Advancing(s, t).threads[t];
    if th'.pc.WantMigrate? {
      assert Passed(s.tables[th.pc.table], th.op.key, th.pc.i + 1);
    }
  }

  lemma FoundReason(s: State, t: nat)
    requires Inv(s) && t < |s.threads| && InRange(s, t) && s.threads[t].pc.Found?
    ensures t < |Advancing(s, t).threads| && Reason(Advancing(s, t), Advancing(s, t).threads[t])
  {
    assert ThreadOK(s, t);
    var x, p := s.threads[t].pc.table, s.threads[t].pc.p;
    if s.tables[x][p].value == MIGRATE_VALUE {
      assert s.tables[x][p] == Slot(s.threads[t].op.key, MIGRATE_VALUE);
      assert HasSlot(s.tables[x], Slot(s.threads[t].op.key, MIGRATE_VALUE));
    }
  }

  lemma OwnReason(s: State, t: nat)
    requires Inv(s) && t < |s.threads| && InRange(s, t) && s.threads[t].pc != Idle && !s.threads[t].pc.Returned?
    ensures t < |Advancing(s, t).threads| && Reason(Advancing(s, t), Advancing(s, t).threads[t])
  {
    if s.threads[t].pc.Probe? {
      ProbeReason(s, t);
    } else if s.threads[t].pc.Found? {
      FoundReason(s, t);
    } else if s.threads[t].pc.MoveProbe? && s.threads[t].pc.j >= ProbeLimit(|s.tables[s.to.value]|) {
      assert Advancing(s, t).threads == s.threads;
    } else {
      OtherReason(s, t);
    }
  }

  lemma OtherReason(s: State, t: nat)
    requires t < |s.threads| && InRange(s, t) && s.threads[t].pc != Idle && !s.threads[t].pc.Returned?
    requires !s.threads[t].pc.Probe? && !s.threads[t].pc.Found?
    requires s.threads[t].pc.MoveProbe? ==> s.threads[t].pc.j < ProbeLimit(|s.tables[s.to.value]|)
    ensures t < |Advancing(s, t).threads|
    ensures Advancing(s, t).threads[t].pc.WantMigrate? ==> Advancing(s, t).threads[t].pc.ptr.None?
  {
    match s.threads[t].pc
    case Protect =>
    case Claim(_, _) =>
    case WantMigrate(_) =>
    case GrabTask(_) =>
    case Seal(_, _, _) =>
    case MoveProbe(_, _, _, _, _, _) =>
    case MoveClaim(_, _, _, _, _, _) =>
    case MoveStore(_, _, _, _, _, _) =>
    case _ =>
  }

  ghost predicate Reasons(s: State) { forall t :: 0 <= t < |s.threads| ==> Reason(s, s.threads[t]) }

  lemma StepReasons(s: State, s': State)
    requires Inv(s) && Reasons(s) && Next(s, s')
    ensures Reasons(s')
  {
    StepTables(s, s');
    var t: nat, a: Action :| Enabled(s, t, a) && InRange(s, t) && s' == Do(s, t, a);
    if a.Advance? {
      AdvanceCalls(s, t);
      OwnReason(s, t);
    }
    forall u | 0 <= u < |s'.threads| && u != t ensures Reason(s', s'.threads[u]) {
      assert ThreadOK(s, u) && s'.threads[u] == s.threads[u];
      if s.threads[u].pc != Idle { ReasonKept(s, s', s.threads[u]); }
    }
  }

  /** A call asks for the migration of a table only if there its key is sealed, or an insert has met only other keys. */
  lemma {:induction false} MigratesOnlyIfNeeded(run: seq<State>, i: nat)
    requires IsRun(run) && i < |run|
    ensures Reasons(run[i])
  {
    if i > 0 {
      MigratesOnlyIfNeeded(run, i - 1);
      RunStep(run, i - 1);
      StepReasons(run[i - 1], run[i]);
    }
  }

  // ----- a call that runs alone

  /** A probed slot of the table is empty or has the key. */
  ghost predicate RoomAt(tb: Table, k: Key, j: nat)
    requires |tb| > 0
  {
    j < ProbeLimit(|tb|) && (tb[ProbeSlot(k, |tb|, j)].key == EMPTY_KEY || tb[ProbeSlot(k, |tb|, j)].key == k)
  }

  /** Thread t is inside a call on the published table; an insert has a slot there, the j-th it probes. */
  ghost predicate CanReturn(s: State, t: nat, j: nat) {
    && Inv(s) && t < |s.threads| && !s.crashed && s.current.Some?
    && var th, tb := s.threads[t], Newest(s);
      && (th.op.Insert? ==> RoomAt(tb, th.op.key, j))
      && match th.pc
         case Protect => true
         case Probe(x, _) => x == |s.tables| - 1
         case Claim(x, _) => x == |s.tables| - 1 && th.op.Insert? && tb[ProbeSlot(th.op.key, |tb|, th.pc.i)].key == EMPTY_KEY
         case Found(x, _) => x == |s.tables| - 1
         case _ => false
  }

  /** A bound on its own steps that are left. */
  function StepsLeft(pc: Pc, size: nat): int {
    match pc
    case Protect => 2 * ProbeLimit(size) + 3
    case Probe(_, i) => 2 * (ProbeLimit(size) - i) + 2
    case Claim(_, i) => 2 * (ProbeLimit(size) - i) + 1
    case Found(_, _) => 1
    case _ => 0
  }

  /** One of its steps: nearer to the return, or there. */
  ghost predicate NearReturn(s: State, t: nat, j: nat, s': State) {
    && t < |s'.threads| && |s.tables| == |s'.tables| > 0 && |Newest(s')| == |Newest(s)| && t < |s.threads|
    && (s'.threads[t].pc.Returned? || (CanReturn(s', t, j) && s'.threads[t].op == s.threads[t].op))
    && 0 <= StepsLeft(s'.threads[t].pc, |Newest(s)|) < StepsLeft(s.threads[t].pc, |Newest(s)|)
  }

  lemma ProtectNear(s: State, t: nat, j: nat)
    requires CanReturn(s, t, j) && s.threads[t].pc == Protect && Inv(Advancing(s, t))
    ensures NearReturn(s, t, j, Advancing(s, t))
  {
  }

  lemma RoomAhead(tb: Table, k: Key, i: nat, j: nat)
    requires |tb| > 0 && RoomAt(tb, k, j) && Passed(tb, k, i)
    ensures i <= j
  {
  }

  lemma ProbeNear(s: State, t: nat, j: nat)
    requires CanReturn(s, t, j) && s.threads[t].pc.Probe? && InRange(s, t) && Inv(Advancing(s, t))
    ensures NearReturn(s, t, j, Advancing(s, t))
  {
    assert ThreadOK(s, t);
    var th, tb := s.threads[t], Newest(s);
    if th.op.Insert? && tb[ProbeSlot(th.op.key, |tb|, th.pc.i)].key != EMPTY_KEY && tb[ProbeSlot(th.op.key, |tb|, th.pc.i)].key != th.op.key {
      assert Passed(tb, th.op.key, th.pc.i + 1);
      RoomAhead(tb, th.op.key, th.pc.i + 1, j);
    }
  }

  lemma ClaimNear(s: State, t: nat, j: nat)
    requires CanReturn(s, t, j) && s.threads[t].pc.Claim? && InRange(s, t) && Inv(Advancing(s, t))
    ensures NearReturn(s, t, j, Advancing(s, t))
  {
    assert ThreadOK(s, t);
    var th, tb := s.threads[t], Newest(s);
    RoomAhead(tb, th.op.key, th.pc.i, j);
  }

  lemma FoundNear(s: State, t: nat, j: nat)
    requires CanReturn(s, t, j) && s.threads[t].pc.Found? && InRange(s, t)
    ensures NearReturn(s, t, j, Advancing(s, t)) && Advancing(s, t).threads[t].pc.Returned?
  {
    assert ThreadOK(s, t);
    assert NoneSealed(Newest(s));
  }

  lemma StepNear(s: State, t: nat, j: nat)
    requires CanReturn(s, t, j)
    ensures Enabled(s, t, Advance) && InRange(s, t) && NearReturn(s, t, j, Advancing(s, t))
  {
    InvInRange(s, t);
    AdvanceInv(s, t);
    match s.threads[t].pc
    case Protect => ProtectNear(s, t, j);
    case Probe(_, _) => ProbeNear(s, t, j);
    case Claim(_, _) => ClaimNear(s, t, j);
    case Found(_, _) => FoundNear(s, t, j);
  }

  /** more: the states that t's own steps lead to from s, up to its return. */
  ghost predicate RunsAlone(s: State, t: nat, more: seq<State>)
    decreases |more|
  {
    t < |s.threads| &&
    if more == [] then s.threads[t].pc.Returned?
    else Enabled(s, t, Advance) && InRange(s, t) && more[0] == Do(s, t, Advance) && RunsAlone(more[0], t, more[1..])
  }

  /** If a call that is alone finds a slot for its key, it returns: at most twice the limit of the probe and three of its steps. */
  lemma {:induction false} AloneReturns(s: State, t: nat, j: nat) returns (more: seq<State>)
    requires CanReturn(s, t, j)
    ensures RunsAlone(s, t, more) && |more| <= StepsLeft(s.threads[t].pc, |Newest(s)|)
    decreases StepsLeft(s.threads[t].pc, |Newest(s)|)
  {
    StepNear(s, t, j);
    var s' := Advancing(s, t);
    more := [];
    if !s'.threads[t].pc.Returned? { more := AloneReturns(s', t, j); }
    var rest := more;
    more := [s'] + rest;
    assert more[1..] == rest;
  }
}
