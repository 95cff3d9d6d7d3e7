/**
 * Whose value the calls of pxcutils/pxc/utils/ConcurrentHashTable.h answer.
 *
 * Every answer of an insert of k is the argument of an insert of k that returned it itself, no
 * later; so is every answer of a find of k other than its default and the two special values.
 * The call whose step binds the key is such a call.
 */
module ConcurrentInsert {
  import opened ConcurrentHashMap

  /** The thread is in an insert of k that has put in its own value w and answers it. */
  predicate OwnAnswer(th: Thread, k: Key, w: Value) { th.op == Insert(k, w) && th.pc == Returned(w) }

  /** Up to the i-th state some insert of k has answered its own argument w. */
  ghost predicate PutIn(run: seq<State>, i: nat, k: Key, w: Value)
    requires i < |run|
  {
    exists n, t :: 0 <= n <= i && 0 <= t < |run[n].threads| && OwnAnswer(run[n].threads[t], k, w)
  }

  lemma PutInLater(run: seq<State>, i: nat, j: nat, k: Key, w: Value)
    requires i <= j < |run| && PutIn(run, i, k, w)
    ensures PutIn(run, j, k, w)
  {
    var n, t :| 0 <= n <= i && 0 <= t < |run[n].threads| && OwnAnswer(run[n].threads[t], k, w);
    assert 0 <= n <= j;
  }

  lemma PutInNow(run: seq<State>, i: nat, t: nat, k: Key, w: Value)
    requires i < |run| && t < |run[i].threads| && OwnAnswer(run[i].threads[t], k, w)
    ensures PutIn(run, i, k, w)
  {
    assert 0 <= i <= i;
  }

  // ----- the step that binds a key

  lemma AccessAnswers(s: State, t: nat, x: nat, p: nat, k: Key)
    requires t < |s.threads| && x < |s.tables| && p < |s.tables[x]|
    requires var s' := Accessing(s, t, x, p); k in s'.bound && k !in s.bound
    ensures var s' := Accessing(s, t, x, p); t < |s'.threads| && OwnAnswer(s'.threads[t], k, s'.bound[k])
  {
  }

  lemma AdvanceAnswers(s: State, t: nat, k: Key)
    requires t < |s.threads| && InRange(s, t) && k !in s.bound && k in Advancing(s, t).bound
    ensures var s' := Advancing(s, t); t < |s'.threads| && OwnAnswer(s'.threads[t], k, s'.bound[k])
  {
    if s.threads[t].pc.Found? {
      AccessAnswers(s, t, s.threads[t].pc.table, s.threads[t].pc.p, k);
    } else {
      OnlyFillBinds(s, t);
    }
  }

  /** The call whose step binds a key returns its own argument, and that is the binding. */
  lemma BindingCallAnswers(run: seq<State>, i: nat, k: Key) returns (t: nat)
    requires IsRun(run) && i + 1 < |run| && k !in run[i].bound && k in run[i + 1].bound
    ensures t < |run[i + 1].threads| && OwnAnswer(run[i + 1].threads[t], k, run[i + 1].bound[k])
    ensures t < |run[i].threads| && run[i].threads[t].op == run[i + 1].threads[t].op && run[i].threads[t].pc.Found?
  {
    assert StepAt(run, i);
    var s, s' := run[i], run[i + 1];
    var u: nat, a: Action :| Enabled(s, u, a) && InRange(s, u) && s' == Do(s, u, a);
    t := u;
    AdvanceAnswers(s, t, k);
    AdvanceCalls(s, t);
    if !s.threads[t].pc.Found? { OnlyFillBinds(s, t); }
  }

  /** A binding is the argument of an insert that answered it. */
  lemma {:induction false} BoundPutIn(run: seq<State>, i: nat, k: Key)
    requires IsRun(run) && i < |run| && k in run[i].bound
    ensures PutIn(run, i, k, run[i].bound[k])
  {
    if i > 0 {
      if k in run[i - 1].bound {
        RunStepBound(run, i - 1, k);
        BoundPutIn(run, i - 1, k);
        PutInLater(run, i - 1, i, k, run[i].bound[k]);
      } else {
        var t := BindingCallAnswers(run, i - 1, k);
        PutInNow(run, i, t, k, run[i].bound[k]);
      }
    }
  }

  // ----- the answers

  /** An insert answers the empty value only if it is its own. */
  ghost predicate EmptyIsOwn(s: State) {
    forall t :: 0 <= t < |s.threads| && s.threads[t].op.Insert? && s.threads[t].pc == Returned(EMPTY_VALUE) ==>
      s.threads[t].op.arg == EMPTY_VALUE
  }

  lemma EmptyStep(s: State, t: nat)
    requires t < |s.threads| && InRange(s, t) && EmptyIsOwn(s) && s.threads[t].pc != Idle
    ensures var th := Advancing(s, t).threads; t < |th| && (th[t].op.Insert? && th[t].pc == Returned(EMPTY_VALUE) ==> th[t].op.arg == EMPTY_VALUE)
  {
    AdvanceCalls(s, t);
    match s.threads[t].pc
    case Probe(_, _) =>
    case Claim(_, _) =>
    case Found(_, _) =>
    case WantMigrate(_) =>
    case GrabTask(_) =>
    case Seal(_, _, _) =>
    case MoveProbe(_, _, _, _, _, _) =>
    case MoveClaim(_, _, _, _, _, _) =>
    case MoveStore(_, _, _, _, _, _) =>
    case _ =>
  }

  lemma {:induction false} RunEmpty(run: seq<State>, i: nat)
    requires IsRun(run) && i < |run|
    ensures EmptyIsOwn(run[i])
  {
    if i > 0 {
      RunEmpty(run, i - 1);
      assert StepAt(run, i - 1);
      var s, s' := run[i - 1], run[i];
      var t: nat, a: Action :| Enabled(s, t, a) && InRange(s, t) && s' == Do(s, t, a);
      if a.Advance? {
        AdvanceCalls(s, t);
        EmptyStep(s, t);
      }
    }
  }

  /** What an insert of k answers, some insert of k has put in as its own argument and answered, no later. */
  lemma InsertAnswersInserted(run: seq<State>, j: nat, t: nat)
    requires IsRun(run) && j < |run| && t < |run[j].threads|
    requires run[j].threads[t].op.Insert? && run[j].threads[t].pc.Returned?
    ensures PutIn(run, j, run[j].threads[t].op.key, run[j].threads[t].pc.result)
  {
    var th := run[j].threads[t];
    if th.pc.result == EMPTY_VALUE {
      RunEmpty(run, j);
      PutInNow(run, j, t, th.op.key, EMPTY_VALUE);
    } else {
      RunInv(run, j);
      InsertBinds(run[j], t);
      BoundPutIn(run, j, th.op.key);
    }
  }

  /** What a find of k answers besides its default and the special values, some insert of k has put in and answered. */
  lemma FindAnswersInserted(run: seq<State>, j: nat, u: nat)
    requires IsRun(run) && j < |run| && u < |run[j].threads|
    requires run[j].threads[u].op.Find? && run[j].threads[u].pc.Returned?
    ensures var r := run[j].threads[u].pc.result;
      r == run[j].threads[u].op.arg || r == EMPTY_VALUE || r == MIGRATE_VALUE || PutIn(run, j, run[j].threads[u].op.key, r)
  {
    RunInv(run, j);
    assert ThreadOK(run[j], u);
    if run[j].threads[u].op.key in run[j].bound { BoundPutIn(run, j, run[j].threads[u].op.key); }
  }

  // ----- what callers know

  /** Up to the i-th state some call Insert(k, w) has begun. */
  ghost predicate Begun(run: seq<State>, i: nat, k: Key, w: Value)
    requires i < |run|
  {
    exists n, t :: 0 <= n <= i && 0 <= t < |run[n].threads| && run[n].threads[t].pc != Idle && run[n].threads[t].op == Insert(k, w)
  }

  lemma PutInBegun(run: seq<State>, i: nat, k: Key, w: Value)
    requires i < |run| && PutIn(run, i, k, w)
    ensures Begun(run, i, k, w)
  {
    var n, t :| 0 <= n <= i && 0 <= t < |run[n].threads| && OwnAnswer(run[n].threads[t], k, w);
    assert run[n].threads[t].pc != Idle;
  }

  /** If only the value v was ever offered for a key, that is what its inserts answer. */
  lemma OnlyValue(run: seq<State>, j: nat, t: nat, v: Value)
    requires IsRun(run) && j < |run| && t < |run[j].threads|
    requires run[j].threads[t].op.Insert? && run[j].threads[t].pc.Returned?
    requires forall w :: Begun(run, j, run[j].threads[t].op.key, w) ==> w == v
    ensures run[j].threads[t].pc.result == v
  {
    InsertAnswersInserted(run, j, t);
    PutInBegun(run, j, run[j].threads[t].op.key, run[j].threads[t].pc.result);
  }

  /**
   * Two inserts of a key that answer something nonempty answer the same, whatever their order:
   * one of the offered values wins.
   */
  lemma OneWinner(run: seq<State>, i: nat, t: nat, j: nat, u: nat)
    requires IsRun(run) && i <= j < |run| && t < |run[i].threads| && u < |run[j].threads|
    requires run[i].threads[t].op.Insert? && run[i].threads[t].pc.Returned? && run[i].threads[t].pc.result != EMPTY_VALUE
    requires run[j].threads[u].op.Insert? && run[j].threads[u].pc.Returned? && run[j].threads[u].pc.result != EMPTY_VALUE
    requires run[j].threads[u].op.key == run[i].threads[t].op.key
    ensures run[j].threads[u].pc.result == run[i].threads[t].pc.result
  {
    var k := run[i].threads[t].op.key;
    RunInv(run, i);
    RunInv(run, j);
    InsertBinds(run[i], t);
    InsertBinds(run[j], u);
    BoundStays(run, i, j, k);
  }
}
