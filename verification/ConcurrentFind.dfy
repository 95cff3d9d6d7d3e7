/**
 * What find of pxcutils/pxc/utils/ConcurrentHashTable.h answers for a key that nothing is bound to.
 *
 * Its caller's default is one of three answers.  Find answers the empty value if the key's slot is
 * claimed and not filled when it reads it, and the seal if it has read a seal before and then meets
 * no slot of the key; these and the default are exhaustive, each exactly in its case.  A caller
 * gets the default for certain exactly if no insert of the key has begun.
 */
module ConcurrentFind {
  import opened ConcurrentHashMap

  // ----- a call of find

  /** Thread u is inside a call. */
  predicate InCall(s: State, u: nat) {
    u < |s.threads| && s.threads[u].pc != Idle && !s.threads[u].pc.Returned?
  }

  ghost predicate CallsUpTo(run: seq<State>, m: nat, j: nat, u: nat)
    requires j <= |run|
  {
    forall i :: m <= i < j ==> InCall(run[i], u)
  }

  /** A find of thread u that begins with state m and returns with state j. */
  ghost predicate FindCall(run: seq<State>, m: nat, j: nat, u: nat) {
    && IsRun(run) && 0 < m < j < |run|
    && u < |run[m - 1].threads| && run[m - 1].threads[u].pc == Idle
    && CallsUpTo(run, m, j, u) && run[m].threads[u].op.Find?
    && u < |run[j].threads| && run[j].threads[u].pc.Returned?
  }

  /** The find has just read a seal: only then does it ask for the migration of a table. */
  predicate ReadSeal(s: State, u: nat) {
    u < |s.threads| && s.threads[u].pc.WantMigrate? && s.threads[u].pc.ptr.Some?
  }

  ghost predicate SealMet(run: seq<State>, m: nat, i: nat, u: nat)
    requires i < |run|
  {
    exists n :: m <= n <= i && ReadSeal(run[n], u)
  }

  /** Its answer is what it read in a slot of its key, and not the end of a probe. */
  predicate ReadsSlot(s: State, u: nat) { u < |s.threads| && s.threads[u].pc.Found? }

  // ----- its steps

  /** What a step leaves of the thread of a find. */
  ghost predicate FindStep(s: State, th: Thread, th': Thread) {
    var sealed := th'.pc.WantMigrate? && th'.pc.ptr.Some?;
    th'.op == th.op
    && (if th'.pc.Returned? then
          (th.pc.Found? && th.pc.table < |s.tables| && th.pc.p < |s.tables[th.pc.table]|
           && th'.pc.result == s.tables[th.pc.table][th.pc.p].value != MIGRATE_VALUE)
          || (th.pc.Probe? && th'.pc.result == th.local)
        else if sealed then th.pc.Found? && th'.local == MIGRATE_VALUE
        else th'.local == th.local)
  }

  lemma ProbeStep(s: State, t: nat)
    requires t < |s.threads| && InRange(s, t) && s.threads[t].op.Find? && (s.threads[t].pc.Probe? || s.threads[t].pc.Found?)
    ensures FindStep(s, s.threads[t], Advancing(s, t).threads[t])
  {
  }

  lemma OtherStep(s: State, t: nat)
    requires t < |s.threads| && InRange(s, t) && s.threads[t].op.Find? && InCall(s, t)
    requires !s.threads[t].pc.Probe? && !s.threads[t].pc.Found? && !s.threads[t].pc.Claim?
    ensures FindStep(s, s.threads[t], Advancing(s, t).threads[t])
  {
    match s.threads[t].pc
    case WantMigrate(_) =>
    case GrabTask(_) =>
    case Seal(_, _, _) =>
    case MoveProbe(_, _, _, _, _, _) => CarryStep(s, t);
    case MoveClaim(_, _, _, _, _, _) => CarryStep(s, t);
    case MoveStore(_, _, _, _, _, _) => CarryStep(s, t);
    case _ =>
  }

  lemma CarryStep(s: State, t: nat)
    requires t < |s.threads| && InRange(s, t)
    requires s.threads[t].pc.MoveProbe? || s.threads[t].pc.MoveClaim? || s.threads[t].pc.MoveStore?
    ensures FindStep(s, s.threads[t], Advancing(s, t).threads[t])
  {
    match s.threads[t].pc
    case MoveProbe(_, _, _, _, _, _) =>
    case MoveClaim(_, _, _, _, _, _) =>
    case _ =>
  }

  /** A claim is always an insert's. */
  ghost predicate ClaimsInsert(s: State) {
    forall t :: 0 <= t < |s.threads| && s.threads[t].pc.Claim? ==> s.threads[t].op.Insert?
  }

  lemma ClaimStep(s: State, t: nat)
    requires t < |s.threads| && InRange(s, t) && ClaimsInsert(s) && InCall(s, t)
    ensures Advancing(s, t).threads[t].pc.Claim? ==> Advancing(s, t).threads[t].op.Insert?
  {
    if s.threads[t].pc.MoveProbe? || s.threads[t].pc.MoveClaim? || s.threads[t].pc.MoveStore? {
      CarryNoClaim(s, t);
    } else {
      match s.threads[t].pc
      case Probe(_, _) =>
      case Claim(_, _) =>
      case Found(_, _) =>
      case WantMigrate(_) =>
      case GrabTask(_) =>
      case Seal(_, _, _) =>
      case _ =>
    }
  }

  lemma CarryNoClaim(s: State, t: nat)
    requires t < |s.threads| && InRange(s, t)
    requires s.threads[t].pc.MoveProbe? || s.threads[t].pc.MoveClaim? || s.threads[t].pc.MoveStore?
    ensures !Advancing(s, t).threads[t].pc.Claim?
  {
    match s.threads[t].pc
    case MoveProbe(_, _, _, _, _, _) =>
    case MoveClaim(_, _, _, _, _, _) =>
    case _ =>
  }

  lemma {:induction false} RunClaims(run: seq<State>, i: nat)
    requires IsRun(run) && i < |run|
    ensures ClaimsInsert(run[i])
  {
    if i > 0 {
      RunClaims(run, i - 1);
      assert StepAt(run, i - 1);
      var s, s' := run[i - 1], run[i];
      var t, a :| Enabled(s, t, a) && InRange(s, t) && s' == Do(s, t, a);
      if a.Advance? {
        AdvanceCalls(s, t);
        ClaimStep(s, t);
      }
    }
  }

  /** Any step of a run, as the thread of a find sees it. */
  lemma FindSteps(run: seq<State>, i: nat, u: nat)
    requires IsRun(run) && i + 1 < |run| && InCall(run[i], u) && run[i].threads[u].op.Find?
    ensures u < |run[i + 1].threads|
    ensures run[i + 1].threads[u] == run[i].threads[u] || FindStep(run[i], run[i].threads[u], run[i + 1].threads[u])
  {
    RunClaims(run, i);
    assert StepAt(run, i);
    var s, s' := run[i], run[i + 1];
    var t: nat, a: Action :| Enabled(s, t, a) && InRange(s, t) && s' == Do(s, t, a);
    if t == u {
      if s.threads[t].pc.Probe? || s.threads[t].pc.Found? { ProbeStep(s, t); } else { OtherStep(s, t); }
    } else if a.Advance? {
      AdvanceCalls(s, t);
    }
  }

  /** The call begins with its default. */
  lemma FindBegins(run: seq<State>, m: nat, u: nat)
    requires IsRun(run) && 0 < m < |run| && u < |run[m - 1].threads| && run[m - 1].threads[u].pc == Idle && InCall(run[m], u)
    ensures run[m].threads[u].pc == Protect && run[m].threads[u].local == run[m].threads[u].op.arg
  {
    assert StepAt(run, m - 1);
    var s, s' := run[m - 1], run[m];
    var t, a :| Enabled(s, t, a) && InRange(s, t) && s' == Do(s, t, a);
    if a.Advance? { AdvanceCalls(s, t); }
  }

  /** While the find goes on, its variable is the seal if it has met one, and else the default. */
  lemma {:induction false} LocalIs(run: seq<State>, m: nat, i: nat, u: nat)
    requires IsRun(run) && 0 < m <= i < |run| && u < |run[m - 1].threads| && run[m - 1].threads[u].pc == Idle
    requires CallsUpTo(run, m, i + 1, u) && run[m].threads[u].op.Find?
    ensures InCall(run[i], u) && run[i].threads[u].op == run[m].threads[u].op
    ensures run[i].threads[u].local == if SealMet(run, m, i, u) then MIGRATE_VALUE else run[m].threads[u].op.arg
    decreases i
  {
    assert InCall(run[m], u) && InCall(run[i], u);
    if i == m {
      FindBegins(run, m, u);
    } else {
      LocalIs(run, m, i - 1, u);
      FindSteps(run, i - 1, u);
      SealMetNext(run, m, i - 1, u);
    }
  }

  lemma SealMetNext(run: seq<State>, m: nat, i: nat, u: nat)
    requires m <= i && i + 1 < |run|
    ensures SealMet(run, m, i + 1, u) <==> SealMet(run, m, i, u) || ReadSeal(run[i + 1], u)
    ensures ReadSeal(run[i], u) ==> SealMet(run, m, i, u)
  {
    if SealMet(run, m, i, u) {
      var n :| m <= n <= i && ReadSeal(run[n], u);
      assert m <= n <= i + 1 && ReadSeal(run[n], u);
    }
    if ReadSeal(run[i + 1], u) { assert m <= i + 1 <= i + 1; }
  }

  // ----- the answers

  /** The key has a slot that is claimed and not filled. */
  ghost predicate Unfilled(s: State, k: Key) {
    exists x :: 0 <= x < |s.tables| && HasSlot(s.tables[x], Slot(k, EMPTY_VALUE))
  }

  /** What a slot of an unbound key can hold. */
  lemma UnboundSlot(s: State, u: nat)
    requires Inv(s) && InCall(s, u) && s.threads[u].pc.Found? && s.threads[u].op.key !in s.bound
    ensures var x, p := s.threads[u].pc.table, s.threads[u].pc.p;
      x < |s.tables| && p < |s.tables[x]| && s.tables[x][p].key == s.threads[u].op.key && s.tables[x][p].value <= MIGRATE_VALUE
  {
    assert ThreadOK(s, u);
  }

  /**
   * The answer of a find whose key is not bound when it returns: the empty value exactly if it
   * answers from a slot, which holds that value; else, at the end of a probe, be it an empty slot
   * or the limit, the seal exactly if it has met one, and the default exactly if not.
   */
  lemma FindAnswers(run: seq<State>, m: nat, j: nat, u: nat)
    requires FindCall(run, m, j, u) && run[m].threads[u].op.key !in run[j].bound
    ensures ReadsSlot(run[j - 1], u) || (u < |run[j - 1].threads| && run[j - 1].threads[u].pc.Probe?)
    ensures run[j].threads[u].pc.result ==
      if ReadsSlot(run[j - 1], u) then EMPTY_VALUE
      else if SealMet(run, m, j - 1, u) then MIGRATE_VALUE else run[m].threads[u].op.arg
    ensures ReadsSlot(run[j - 1], u) ==> Unfilled(run[j - 1], run[m].threads[u].op.key)
  {
    LocalIs(run, m, j - 1, u);
    FindSteps(run, j - 1, u);
    RunInv(run, j - 1);
    var s, k := run[j - 1], run[m].threads[u].op.key;
    if k in s.bound { RunStepBound(run, j - 1, k); }
    if s.threads[u].pc.Found? {
      UnboundSlot(s, u);
      var x, p := s.threads[u].pc.table, s.threads[u].pc.p;
      assert s.tables[x][p] == Slot(k, EMPTY_VALUE);
      assert HasSlot(s.tables[x], Slot(k, EMPTY_VALUE));
    }
  }

  /** The three answers, each in terms of what the call met. */
  lemma FindAnswersExactly(run: seq<State>, m: nat, j: nat, u: nat)
    requires FindCall(run, m, j, u) && run[m].threads[u].op.key !in run[j].bound
    ensures var r, d, slot, seal := run[j].threads[u].pc.result, run[m].threads[u].op.arg, ReadsSlot(run[j - 1], u), SealMet(run, m, j - 1, u);
      && (r == EMPTY_VALUE <==> slot || (!seal && d == EMPTY_VALUE))
      && (r == MIGRATE_VALUE <==> !slot && (seal || d == MIGRATE_VALUE))
      && (r == d <==> (!slot && !seal) || (slot && d == EMPTY_VALUE) || (!slot && seal && d == MIGRATE_VALUE))
  {
    FindAnswers(run, m, j, u);
  }

  /** A find that met no seal and does not answer from a slot answers its default. */
  lemma FindWithoutSeal(run: seq<State>, m: nat, j: nat, u: nat)
    requires FindCall(run, m, j, u) && run[m].threads[u].op.key !in run[j].bound && !SealMet(run, m, j - 1, u)
    ensures run[j].threads[u].pc.result == if ReadsSlot(run[j - 1], u) then EMPTY_VALUE else run[m].threads[u].op.arg
  {
    FindAnswers(run, m, j, u);
  }

  /** A find that met a seal never answers a default that is neither special value, whichever way its probe ends. */
  lemma FindAfterSeal(run: seq<State>, m: nat, j: nat, u: nat)
    requires FindCall(run, m, j, u) && run[m].threads[u].op.key !in run[j].bound && SealMet(run, m, j - 1, u)
    ensures run[j].threads[u].pc.result == if ReadsSlot(run[j - 1], u) then EMPTY_VALUE else MIGRATE_VALUE
  {
    FindAnswers(run, m, j, u);
  }

  // ----- what a caller can rely on

  predicate Inserts(th: Thread, k: Key) { th.pc != Idle && th.op.Insert? && th.op.key == k }

  /** In the first states up to the i-th some thread was in an insert of k. */
  ghost predicate InsertBegun(run: seq<State>, i: nat, k: Key)
    requires i < |run|
  {
    exists n, t :: 0 <= n <= i && 0 <= t < |run[n].threads| && Inserts(run[n].threads[t], k)
  }

  ghost predicate KeyIn(s: State, k: Key) {
    exists x :: 0 <= x < |s.tables| && KeyInTable(s.tables[x], k)
  }

  ghost predicate KeyInTable(tb: Table, k: Key) { exists p :: 0 <= p < |tb| && tb[p].key == k }

  lemma KeyOfSlot(s: State, x: nat, p: nat)
    requires x < |s.tables| && p < |s.tables[x]|
    ensures KeyIn(s, s.tables[x][p].key)
  {
    assert KeyInTable(s.tables[x], s.tables[x][p].key);
  }

  /** Writing a slot brings in no key but the one written. */
  lemma SetSlotKeys(s: State, s': State, x: nat, p: nat, slot: Slot, k: Key)
    requires x < |s.tables| && p < |s.tables[x]| && s'.tables == s.tables[x := s.tables[x][p := slot]]
    requires KeyIn(s', k) && slot.key != k
    ensures KeyIn(s, k)
  {
    var y :| 0 <= y < |s'.tables| && KeyInTable(s'.tables[y], k);
    var q :| 0 <= q < |s'.tables[y]| && s'.tables[y][q].key == k;
    assert s.tables[y][q].key == k;
    KeyOfSlot(s, y, q);
  }

  lemma JoinKeys(s: State, t: nat, ptr: Option<nat>, k: Key)
    requires t < |s.threads| && k != EMPTY_KEY && KeyIn(Joining(s, t, ptr), k)
    ensures KeyIn(s, k)
  {
    var s' := Joining(s, t, ptr);
    var y :| 0 <= y < |s'.tables| && KeyInTable(s'.tables[y], k);
    var q :| 0 <= q < |s'.tables[y]| && s'.tables[y][q].key == k;
    assert y < |s.tables| && s.tables[y] == s'.tables[y];
    KeyOfSlot(s, y, q);
  }

  /** A new key of a table was claimed by a call on it, or is moved from another table. */
  lemma StepKeys(s: State, t: nat, k: Key)
    requires Inv(s) && t < |s.threads| && InRange(s, t) && k != EMPTY_KEY && KeyIn(Advancing(s, t), k)
    ensures KeyIn(s, k) || (s.threads[t].pc.Claim? && s.threads[t].op.key == k)
  {
    match s.threads[t].pc
    case Claim(x, i) => ClaimKeys(s, t, k);
    case Found(x, p) => FoundKeys(s, t, k);
    case WantMigrate(ptr) => JoinKeys(s, t, ptr, k);
    case Seal(_, _, _) => SealKeys(s, t, k);
    case MoveProbe(_, _, _, _, _, _) => assert Advancing(s, t).tables == s.tables;
    case MoveClaim(_, _, _, _, _, _) => MoveClaimKeys(s, t, k);
    case MoveStore(_, _, _, _, _, _) => MoveStoreKeys(s, t, k);
    case _ => assert Advancing(s, t).tables == s.tables;
  }

  lemma ClaimKeys(s: State, t: nat, k: Key)
    requires t < |s.threads| && InRange(s, t) && s.threads[t].pc.Claim? && KeyIn(Advancing(s, t), k)
    ensures KeyIn(s, k) || s.threads[t].op.key == k
  {
    var x := s.threads[t].pc.table;
    var p := ProbeSlot(s.threads[t].op.key, |s.tables[x]|, s.threads[t].pc.i);
    if s.tables[x][p].key == EMPTY_KEY && s.threads[t].op.key != k {
      SetSlotKeys(s, Advancing(s, t), x, p, s.tables[x][p].(key := s.threads[t].op.key), k);
    }
  }

  lemma SameKeys(s: State, s': State, x: nat, p: nat, v: Value, k: Key)
    requires x < |s.tables| && p < |s.tables[x]|
    requires s'.tables == s.tables[x := s.tables[x][p := s.tables[x][p].(value := v)]] && KeyIn(s', k)
    ensures KeyIn(s, k)
  {
    if s.tables[x][p].key == k { KeyOfSlot(s, x, p); } else { SetSlotKeys(s, s', x, p, s.tables[x][p].(value := v), k); }
  }

  lemma FoundKeys(s: State, t: nat, k: Key)
    requires t < |s.threads| && InRange(s, t) && s.threads[t].pc.Found? && KeyIn(Advancing(s, t), k)
    ensures KeyIn(s, k)
  {
    var s', x, p, op := Advancing(s, t), s.threads[t].pc.table, s.threads[t].pc.p, s.threads[t].op;
    if op.Insert? && s.tables[x][p].value == EMPTY_VALUE { SameKeys(s, s', x, p, op.arg, k); }
  }

  lemma SealKeys(s: State, t: nat, k: Key)
    requires t < |s.threads| && InRange(s, t) && s.threads[t].pc.Seal? && KeyIn(Advancing(s, t), k)
    ensures KeyIn(s, k)
  {
    SameKeys(s, Advancing(s, t), s.from.value, s.threads[t].pc.i, MIGRATE_VALUE, k);
  }

  lemma MoveStoreKeys(s: State, t: nat, k: Key)
    requires t < |s.threads| && InRange(s, t) && s.threads[t].pc.MoveStore? && KeyIn(Advancing(s, t), k)
    ensures KeyIn(s, k)
  {
    SameKeys(s, Advancing(s, t), s.to.value, s.threads[t].pc.p, s.threads[t].pc.v, k);
  }

  /** The key that is moved is sealed in the old table. */
  lemma MoveClaimKeys(s: State, t: nat, k: Key)
    requires Inv(s) && t < |s.threads| && InRange(s, t) && s.threads[t].pc.MoveClaim? && KeyIn(Advancing(s, t), k)
    ensures KeyIn(s, k)
  {
    InMigration(s, t);
    var pc, x := s.threads[t].pc, s.to.value;
    var from := Previous(s);
    var q :| 0 <= q < |from| && from[q] == Slot(pc.k, MIGRATE_VALUE);
    KeyOfSlot(s, |s.tables| - 2, q);
    var p := ProbeSlot(pc.k, |s.tables[x]|, pc.j);
    if pc.k != k && s.tables[x][p].key == EMPTY_KEY {
      SetSlotKeys(s, Advancing(s, t), x, p, s.tables[x][p].(key := pc.k), k);
    }
  }

  lemma NoKeyAtFirst(s: State, k: Key)
    requires Init(s) && k != EMPTY_KEY
    ensures !KeyIn(s, k)
  {
  }

  lemma RunStepKeys(run: seq<State>, i: nat, k: Key) returns (t: nat)
    requires IsRun(run) && i + 1 < |run| && k != EMPTY_KEY && KeyIn(run[i + 1], k)
    ensures KeyIn(run[i], k) || (t < |run[i].threads| && Inserts(run[i].threads[t], k))
  {
    var s, s' := run[i], run[i + 1];
    RunInv(run, i);
    RunClaims(run, i);
    assert StepAt(run, i);
    var w: nat, a: Action :| Enabled(s, w, a) && InRange(s, w) && s' == Do(s, w, a);
    t := w;
    if a.Advance? { StepKeys(s, t, k); }
  }

  /** A key is in a table only after an insert of it has begun. */
  lemma {:induction false} KeyFromInsert(run: seq<State>, i: nat, k: Key)
    requires IsRun(run) && i < |run| && k != EMPTY_KEY && KeyIn(run[i], k)
    ensures InsertBegun(run, i, k)
  {
    if i == 0 {
      NoKeyAtFirst(run[0], k);
    } else {
      var t := RunStepKeys(run, i - 1, k);
      if KeyIn(run[i - 1], k) {
        KeyFromInsert(run, i - 1, k);
        BegunLater(run, i - 1, i, k);
      } else {
        assert 0 <= i - 1 <= i && Inserts(run[i - 1].threads[t], k);
      }
    }
  }

  lemma BegunLater(run: seq<State>, i: nat, j: nat, k: Key)
    requires i <= j < |run| && InsertBegun(run, i, k)
    ensures InsertBegun(run, j, k)
  {
    var n, t :| 0 <= n <= i && 0 <= t < |run[n].threads| && Inserts(run[n].threads[t], k);
    assert 0 <= n <= j;
  }

  lemma NotBegunBefore(run: seq<State>, i: nat, j: nat, k: Key)
    requires i <= j < |run| && !InsertBegun(run, j, k)
    ensures !InsertBegun(run, i, k)
  {
    if InsertBegun(run, i, k) { BegunLater(run, i, j, k); }
  }

  /** A find stands at a slot of its key only after an insert of it has begun. */
  lemma FoundAfterInsert(run: seq<State>, i: nat, u: nat)
    requires IsRun(run) && i < |run| && InCall(run[i], u) && run[i].threads[u].pc.Found?
    ensures InsertBegun(run, i, run[i].threads[u].op.key)
  {
    RunInv(run, i);
    var s := run[i];
    assert ThreadOK(s, u);
    KeyOfSlot(s, s.threads[u].pc.table, s.threads[u].pc.p);
    KeyFromInsert(run, i, s.threads[u].op.key);
  }

  lemma {:induction false} SealAfterInsert(run: seq<State>, m: nat, i: nat, u: nat)
    requires IsRun(run) && 0 < m <= i < |run| && u < |run[m - 1].threads| && run[m - 1].threads[u].pc == Idle
    requires CallsUpTo(run, m, i + 1, u) && run[m].threads[u].op.Find? && SealMet(run, m, i, u)
    ensures InsertBegun(run, i, run[m].threads[u].op.key)
    decreases i
  {
    assert InCall(run[m], u);
    if i == m {
      FindBegins(run, m, u);
    } else {
      SealMetNext(run, m, i - 1, u);
      LocalIs(run, m, i - 1, u);
      if SealMet(run, m, i - 1, u) {
        SealAfterInsert(run, m, i - 1, u);
      } else {
        FindSteps(run, i - 1, u);
        FoundAfterInsert(run, i - 1, u);
      }
      BegunLater(run, i - 1, i, run[m].threads[u].op.key);
    }
  }

  /** If no insert of the key has begun when the find returns, it answers its default. */
  lemma FindDefault(run: seq<State>, m: nat, j: nat, u: nat)
    requires FindCall(run, m, j, u) && !InsertBegun(run, j, run[m].threads[u].op.key)
    ensures run[j].threads[u].pc.result == run[m].threads[u].op.arg
  {
    var k := run[m].threads[u].op.key;
    LocalIs(run, m, j - 1, u);
    if k in run[j].bound { BoundAfterInsert(run, j, k); }
    NotBegunBefore(run, j - 1, j, k);
    FindAnswers(run, m, j, u);
    if ReadsSlot(run[j - 1], u) { FoundAfterInsert(run, j - 1, u); }
    if SealMet(run, m, j - 1, u) { SealAfterInsert(run, m, j - 1, u); }
  }

  lemma SlotKeyIn(s: State, x: nat, k: Key, v: Value)
    requires x < |s.tables| && HasSlot(s.tables[x], Slot(k, v))
    ensures KeyIn(s, k)
  {
    var p :| 0 <= p < |s.tables[x]| && s.tables[x][p] == Slot(k, v);
    KeyOfSlot(s, x, p);
  }

  /** A bound key is in a table. */
  lemma BoundKeyIn(s: State, k: Key)
    requires Inv(s) && k in s.bound
    ensures KeyIn(s, k) && k != EMPTY_KEY
  {
    var v := s.bound[k];
    assert Located(s, k, v);
    if HasSlot(Newest(s), Slot(k, v)) {
      SlotKeyIn(s, |s.tables| - 1, k, v);
    } else if HasSlot(Previous(s), Slot(k, v)) {
      SlotKeyIn(s, |s.tables| - 2, k, v);
    } else {
      var t :| 0 <= t < |s.threads| && Carries(s.threads[t].pc, k, v);
      CarriedKeyIn(s, t);
    }
  }

  lemma CarriedKeyIn(s: State, t: nat)
    requires Inv(s) && t < |s.threads| && (s.threads[t].pc.MoveProbe? || s.threads[t].pc.MoveClaim? || s.threads[t].pc.MoveStore?)
    ensures KeyIn(s, s.threads[t].pc.k)
  {
    InMigration(s, t);
    SlotKeyIn(s, |s.tables| - 2, s.threads[t].pc.k, MIGRATE_VALUE);
  }

  lemma BoundAfterInsert(run: seq<State>, j: nat, k: Key)
    requires IsRun(run) && j < |run| && k in run[j].bound
    ensures InsertBegun(run, j, k)
  {
    RunInv(run, j);
    BoundKeyIn(run[j], k);
    KeyFromInsert(run, j, k);
  }

  // ----- runs in which it does not answer the default

  ghost predicate Reachable(s: State) {
    exists run :: IsRun(run) && run[|run| - 1] == s
  }

  lemma ReachStart(s: State)
    requires Init(s)
    ensures Reachable(s)
  {
    assert IsRun([s]);
  }

  lemma ReachStep(s: State, t: nat, a: Action)
    requires Reachable(s) && Enabled(s, t, a) && InRange(s, t)
    ensures Reachable(Do(s, t, a))
  {
    var run :| IsRun(run) && run[|run| - 1] == s;
    var run' := run + [Do(s, t, a)];
    forall i | 0 <= i < |run'| - 1 ensures StepAt(run', i) {
      if i < |run| - 1 {
        assert StepAt(run, i);
      }
    }
    assert IsRun(run');
  }

  const FINDS := Find(2, 5)
  const FILLS := Insert(2, 9)
  const OTHER := Insert(3, 8)

  function Scene(table: Table, p0: Pc, p1: Pc, p2: Pc): State {
    State([table], Some(0), None, None, 0, 0, 0, Cast(p0, p1, p2, 5), map[], false)
  }

  function Cast(p0: Pc, p1: Pc, p2: Pc, local: Value): seq<Thread> {
    [Thread(p0, FILLS, 9, None), Thread(p1, OTHER, 8, None), Thread(p2, FINDS, local, None)]
  }

  function Moving(table: Table, pos: nat, p1: Pc, p2: Pc, local: Value): State {
    State([table, TN], None, Some(0), Some(1), 1, 1, pos, Cast(Found(0, 0), p1, p2, local), map[], false)
  }

  function Moved(p2: Pc): State {
    State([T2, TN], Some(1), None, None, 0, 2, 2, Cast(Found(0, 0), Await(1), p2, MIGRATE_VALUE), map[], false)
  }

  const T0: Table := [Slot(EMPTY_KEY, EMPTY_VALUE)]
  const T1: Table := [Slot(2, EMPTY_VALUE)]
  const T2: Table := [Slot(2, MIGRATE_VALUE)]
  const TN: Table := [Slot(EMPTY_KEY, EMPTY_VALUE), Slot(EMPTY_KEY, EMPTY_VALUE)]

  lemma ReachNext(s: State, t: nat, a: Action, s': State)
    requires Reachable(s) && Enabled(s, t, a) && InRange(s, t) && s' == Do(s, t, a)
    ensures Reachable(s')
  {
    ReachStep(s, t, a);
  }

  /** One thread is about to claim the slot of key 2. */
  lemma Scene1()
    ensures Reachable(Scene(T0, Probe(0, 0), Idle, Idle))
  {
    assert T0 == NewTable(1);
    ReachStart(Scene(T0, Idle, Idle, Idle));
    ReachNext(Scene(T0, Idle, Idle, Idle), 0, Call(FILLS), Scene(T0, Protect, Idle, Idle));
    ReachNext(Scene(T0, Protect, Idle, Idle), 0, Advance, Scene(T0, Probe(0, 0), Idle, Idle));
  }

  lemma Scene2()
    ensures Reachable(Scene(T1, Found(0, 0), Idle, Idle))
  {
    Scene1();
    assert T0[0 := Slot(2, EMPTY_VALUE)] == T1;
    ReachNext(Scene(T0, Probe(0, 0), Idle, Idle), 0, Advance, Scene(T0, Claim(0, 0), Idle, Idle));
    ReachNext(Scene(T0, Claim(0, 0), Idle, Idle), 0, Advance, Scene(T1, Found(0, 0), Idle, Idle));
  }

  /** It is claimed but not filled, and a find of key 2 is at the slot. */
  lemma Scene3()
    ensures Reachable(Scene(T1, Found(0, 0), Idle, Found(0, 0)))
  {
    Scene2();
    ReachNext(Scene(T1, Found(0, 0), Idle, Idle), 2, Call(FINDS), Scene(T1, Found(0, 0), Idle, Protect));
    ReachNext(Scene(T1, Found(0, 0), Idle, Protect), 2, Advance, Scene(T1, Found(0, 0), Idle, Probe(0, 0)));
    ReachNext(Scene(T1, Found(0, 0), Idle, Probe(0, 0)), 2, Advance, Scene(T1, Found(0, 0), Idle, Found(0, 0)));
  }

  /** Another insert finds the table full. */
  lemma Scene4()
    ensures Reachable(Scene(T1, Found(0, 0), WantMigrate(Some(0)), Found(0, 0)))
  {
    Scene3();
    ReachNext(Scene(T1, Found(0, 0), Idle, Found(0, 0)), 1, Call(OTHER), Scene(T1, Found(0, 0), Protect, Found(0, 0)));
    ReachNext(Scene(T1, Found(0, 0), Protect, Found(0, 0)), 1, Advance, Scene(T1, Found(0, 0), Probe(0, 0), Found(0, 0)));
    ReachNext(Scene(T1, Found(0, 0), Probe(0, 0), Found(0, 0)), 1, Advance,
              Scene(T1, Found(0, 0), WantMigrate(Some(0)), Found(0, 0)));
  }

  lemma Scene5()
    ensures Reachable(Moving(T1, 1, Seal(1, 0, 1), Found(0, 0), 5))
  {
    Scene4();
    assert NewTable(2) == TN;
    ReachNext(Scene(T1, Found(0, 0), WantMigrate(Some(0)), Found(0, 0)), 1, Advance,
              Moving(T1, 0, GrabTask(1), Found(0, 0), 5));
    ReachNext(Moving(T1, 0, GrabTask(1), Found(0, 0), 5), 1, Advance, Moving(T1, 1, Seal(1, 0, 1), Found(0, 0), 5));
  }

  /** The empty slot is sealed and not moved, and the find reads the seal. */
  lemma Scene6()
    ensures Reachable(Moving(T2, 2, Leave(1), WantMigrate(Some(0)), MIGRATE_VALUE))
  {
    Scene5();
    assert T1[0 := Slot(2, MIGRATE_VALUE)] == T2;
    ReachNext(Moving(T1, 1, Seal(1, 0, 1), Found(0, 0), 5), 1, Advance, Moving(T2, 1, GrabTask(1), Found(0, 0), 5));
    ReachNext(Moving(T2, 1, GrabTask(1), Found(0, 0), 5), 1, Advance, Moving(T2, 2, Leave(1), Found(0, 0), 5));
    ReachNext(Moving(T2, 2, Leave(1), Found(0, 0), 5), 2, Advance,
              Moving(T2, 2, Leave(1), WantMigrate(Some(0)), MIGRATE_VALUE));
  }

  lemma Scene7()
    ensures Reachable(Moved(Probe(1, 0)))
  {
    Scene6();
    ReachNext(Moving(T2, 2, Leave(1), WantMigrate(Some(0)), MIGRATE_VALUE), 1, Advance, Moved(WantMigrate(Some(0))));
    ReachNext(Moved(WantMigrate(Some(0))), 2, Advance, Moved(Protect));
    ReachNext(Moved(Protect), 2, Advance, Moved(Probe(1, 0)));
  }

  ghost predicate SealAnswered(s: State) {
    |s.threads| == 3 && s.bound == map[] && s.threads[2].op == Find(2, 5) && s.threads[2].pc == Returned(MIGRATE_VALUE)
  }

  /**
   * The documented default is not always what find answers for an absent key: a find of key 2
   * with default 5 can return MIGRATE_VALUE although no insertion of key 2 has taken effect.
   */
  lemma FindCanAnswerTheSeal()
    ensures exists s: State :: Reachable(s) && SealAnswered(s)
  {
    Scene7();
    ReachNext(Moved(Probe(1, 0)), 2, Advance, Moved(Returned(MIGRATE_VALUE)));
    assert SealAnswered(Moved(Returned(MIGRATE_VALUE)));
  }

  // ----- the empty value of a claimed slot

  /** Scene2, and then a find of key 2 with default 5 from its call to its answer. */
  function Asking(pc: Pc, local: Value): State { Scene(T1, Found(0, 0), Idle, pc).(threads := Cast(Found(0, 0), Idle, pc, local)) }

  /** A step from s to s' that the run can go on with. */
  ghost predicate CanGo(s: State, s': State) { Next(s, s') }

  lemma StepsTo(run: seq<State>, s: State)
    requires IsRun(run) && CanGo(run[|run| - 1], s)
    ensures IsRun(run + [s])
  {
    var run' := run + [s];
    forall i | 0 <= i < |run'| - 1 ensures StepAt(run', i) {
      if i < |run| - 1 { assert StepAt(run, i); }
    }
  }

  lemma Goes(s: State, t: nat, a: Action, s': State)
    requires Enabled(s, t, a) && InRange(s, t) && s' == Do(s, t, a)
    ensures CanGo(s, s')
  {
  }

  lemma AskingGoes()
    ensures CanGo(Asking(Idle, 5), Asking(Protect, 5)) && CanGo(Asking(Protect, 5), Asking(Probe(0, 0), 5))
  {
    Goes(Asking(Idle, 5), 2, Call(FINDS), Asking(Protect, 5));
    Goes(Asking(Protect, 5), 2, Advance, Asking(Probe(0, 0), 5));
  }

  lemma AskingReads()
    ensures CanGo(Asking(Probe(0, 0), 5), Asking(Found(0, 0), 5))
    ensures CanGo(Asking(Found(0, 0), 5), Asking(Returned(EMPTY_VALUE), EMPTY_VALUE))
  {
    Goes(Asking(Probe(0, 0), 5), 2, Advance, Asking(Found(0, 0), 5));
    Goes(Asking(Found(0, 0), 5), 2, Advance, Asking(Returned(EMPTY_VALUE), EMPTY_VALUE));
  }

  function AskingRun(): seq<State> {
    [Asking(Protect, 5), Asking(Probe(0, 0), 5), Asking(Found(0, 0), 5), Asking(Returned(EMPTY_VALUE), EMPTY_VALUE)]
  }

  lemma AskingFollows(r0: seq<State>)
    requires IsRun(r0) && r0[|r0| - 1] == Asking(Idle, 5)
    ensures IsRun(r0 + AskingRun())
  {
    AskingGoes();
    AskingReads();
    var r1 := r0 + [Asking(Protect, 5)];
    StepsTo(r0, Asking(Protect, 5));
    var r2 := r1 + [Asking(Probe(0, 0), 5)];
    StepsTo(r1, Asking(Probe(0, 0), 5));
    var r3 := r2 + [Asking(Found(0, 0), 5)];
    StepsTo(r2, Asking(Found(0, 0), 5));
    StepsTo(r3, Asking(Returned(EMPTY_VALUE), EMPTY_VALUE));
    assert r0 + AskingRun() == r3 + [Asking(Returned(EMPTY_VALUE), EMPTY_VALUE)];
  }

  lemma AskingCall(r0: seq<State>, run: seq<State>)
    requires IsRun(run) && run == r0 + AskingRun() && r0 != [] && r0[|r0| - 1] == Asking(Idle, 5)
    ensures FindCall(run, |r0|, |r0| + 3, 2) && run[|r0|] == Asking(Protect, 5)
    ensures run[|r0| + 3] == Asking(Returned(EMPTY_VALUE), EMPTY_VALUE)
  {
    var m := |r0|;
    assert run[m] == Asking(Protect, 5) && run[m + 1] == Asking(Probe(0, 0), 5) && run[m + 2] == Asking(Found(0, 0), 5);
    assert run[m - 1] == r0[m - 1];
  }

  /** The key is unbound when the find returns, and it does not answer its default. */
  ghost predicate Strays(run: seq<State>, m: nat, j: nat, u: nat) {
    && FindCall(run, m, j, u) && run[m].threads[u].op.key !in run[j].bound
    && run[j].threads[u].pc.result != run[m].threads[u].op.arg
  }

  /** A find of key 2 with default 5 answers EMPTY_VALUE while an insert of key 2 has claimed its slot and not filled it. */
  lemma FindCanAnswerEmpty() returns (run: seq<State>, m: nat)
    ensures Strays(run, m, m + 3, 2) && run[m].threads[2].op == Find(2, 5) && run[m + 3].threads[2].pc == Returned(EMPTY_VALUE)
  {
    Scene2();
    var r0: seq<State> :| IsRun(r0) && r0[|r0| - 1] == Scene(T1, Found(0, 0), Idle, Idle);
    m := |r0|;
    run := r0 + AskingRun();
    AskingFollows(r0);
    AskingCall(r0, run);
  }

  ghost predicate StraysWith(run: seq<State>, m: nat, j: nat, u: nat, begun: bool) {
    Strays(run, m, j, u) && (InsertBegun(run, j, run[m].threads[u].op.key) ==> begun)
  }

  /** An unbound key's find can answer something else than its default exactly if an insert of the key may have begun. */
  lemma StraysExactlyWithInsert(begun: bool)
    ensures (exists run, m, j, u :: StraysWith(run, m, j, u, begun)) <==> begun
  {
    if begun {
      var run, m := FindCanAnswerEmpty();
      assert StraysWith(run, m, m + 3, 2, begun);
    } else {
      forall run, m, j, u ensures !StraysWith(run, m, j, u, begun) {
        if StraysWith(run, m, j, u, begun) { FindDefault(run, m, j, u); }
      }
    }
  }
}
