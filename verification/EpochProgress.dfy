/**
 * That pxcutils/pxc/utils/EpochBasedMemoryReclamation.h destroys what is retired, and when.
 *
 * An object that a thread retires is destroyed at the third change of the epoch that the thread
 * announces; a thread without undeleted objects has nothing left that it retired; and if all other
 * threads are idle, one turn of retire_sync destroys everything within a bounded number of steps.
 */
module EpochProgress {
  import opened EpochReclamation

  /** The i-th step of the run is thread t's retire(ptr) of o. */
  ghost predicate RetiresAt(run: seq<State>, i: nat, t: nat, o: Obj)
    requires i + 1 < |run|
  {
    BagsThere(run[i]) && Enabled(run[i], t, RetirePtr(o)) && run[i + 1] == Do(run[i], t, RetirePtr(o))
  }

  /** How often the epoch that t announces changes from the i-th state of the run to the j-th. */
  ghost function Changes(run: seq<State>, i: nat, j: nat, t: nat): nat
    requires i <= j < |run| && forall n :: i <= n <= j ==> t < |run[n].threads|
    decreases j
  {
    if i == j then 0
    else Changes(run, i, j - 1, t) + if run[j - 1].threads[t].epoch / 2 != run[j].threads[t].epoch / 2 then 1 else 0
  }

  // ----- one step

  /** Between the rotation of the bags and the store of the new epoch. */
  function Rotated(th: Thread): nat { if th.pc.Store? && th.pc.e != th.epoch / 2 then 1 else 0 }

  /** Until the third rotation the object is in a bag that was rotated a times since; then it is destroyed. */
  ghost predicate Waits(s: State, t: nat, o: Obj, a: int) {
    t < |s.threads| && |s.threads[t].toDelete| == MAX_BAGS && s.threads[t].bag < MAX_BAGS
    && if a < 3 then o !in s.destroyed && exists b :: InBagOfAge(s.threads[t], b, o, a) else o in s.destroyed
  }

  predicate InBagOfAge(th: Thread, b: int, o: Obj, a: int) {
    |th.toDelete| == MAX_BAGS && th.bag < MAX_BAGS && 0 <= b < MAX_BAGS && o in th.toDelete[b] && Age(th.bag, b) == a
  }

  /** t's own step, as its announcement and its bags see it. */
  lemma OwnStep(s: State, t: nat, a: Action)
    requires Inv(s) && BagsThere(s) && Enabled(s, t, a) && !a.Publish? && !a.Unlink? && !a.RetirePtr? && !a.Rotate?
    ensures var s', th := Do(s, t, a), s.threads[t];
      && |s'.threads| == |s.threads| && s'.destroyed == s.destroyed
      && s'.threads[t].toDelete == th.toDelete && s'.threads[t].bag == th.bag
      && Rotated(th) == Rotated(s'.threads[t]) + if th.epoch / 2 != s'.threads[t].epoch / 2 then 1 else 0
  {
    assert ThreadOK(s.threads[t], s.global, |s.threads|);
  }

  lemma RotateStep(s: State, t: nat, o: Obj, n: int)
    requires Inv(s) && BagsThere(s) && Enabled(s, t, Rotate) && Waits(s, t, o, n)
    ensures var s' := Rotating(s, t);
      && |s'.threads| == |s.threads| && s'.threads[t].epoch == s.threads[t].epoch
      && Waits(s', t, o, n + Rotated(s'.threads[t]))
  {
    var th := s.threads[t];
    var s' := Rotating(s, t);
    assert ThreadOK(th, s.global, |s.threads|);
    if n < 3 {
      var b :| InBagOfAge(th, b, o, n);
      assert BagOK(s, t, b, o) && BagOK(s, t, (th.bag + 1) % MAX_BAGS, o);
      if th.epoch / 2 == th.pc.e {
        assert InBagOfAge(s'.threads[t], b, o, n);
      } else if n < 2 {
        assert InBagOfAge(s'.threads[t], b, o, n + 1);
      }
    }
  }

  /** Nobody else empties the bag. */
  lemma OtherStep(s: State, u: nat, a: Action, t: nat, o: Obj, n: int)
    requires Inv(s) && BagsThere(s) && Enabled(s, u, a) && !a.Publish? && !a.Unlink? && !a.RetirePtr? && u != t && Waits(s, t, o, n)
    ensures Waits(Do(s, u, a), t, o, n) && Do(s, u, a).threads[t] == s.threads[t]
  {
    var s' := Do(s, u, a);
    assert s'.threads[t] == s.threads[t] && s.destroyed <= s'.destroyed;
    if n < 3 {
      var b :| InBagOfAge(s.threads[t], b, o, n);
      assert BagOK(s, t, b, o) && BagOK(s, u, (s.threads[u].bag + 1) % MAX_BAGS, o);
    }
  }

  /** What a step by thread u does to an object that t has retired. */
  lemma StepWaits(s: State, u: nat, a: Action, t: nat, o: Obj, n: int)
    requires Inv(s) && BagsThere(s) && Enabled(s, u, a) && t < |s.threads| && Waits(s, t, o, n + Rotated(s.threads[t]))
    ensures var s' := Do(s, u, a);
      && t < |s'.threads|
      && Waits(s', t, o, n + Rotated(s'.threads[t]) + if s.threads[t].epoch / 2 != s'.threads[t].epoch / 2 then 1 else 0)
  {
    var s' := Do(s, u, a);
    if a.Publish? || a.Unlink? || a.RetirePtr? {
      AroundStep(s, u, a, t, o, n + Rotated(s.threads[t]));
    } else if u != t {
      OtherStep(s, u, a, t, o, n + Rotated(s.threads[t]));
    } else if a.Rotate? {
      RotateStep(s, t, o, n);
    } else {
      OwnStep(s, t, a);
      SameBagsWait(s, Do(s, t, a), t, o, n + Rotated(s.threads[t]));
    }
  }

  lemma SameBagsWait(s: State, s': State, t: nat, o: Obj, n: int)
    requires t < |s.threads| == |s'.threads| && s'.destroyed == s.destroyed && Waits(s, t, o, n)
    requires s'.threads[t].toDelete == s.threads[t].toDelete && s'.threads[t].bag == s.threads[t].bag
    ensures Waits(s', t, o, n)
  {
    if n < 3 {
      var b :| InBagOfAge(s.threads[t], b, o, n);
      assert InBagOfAge(s'.threads[t], b, o, n);
    }
  }

  lemma AroundStep(s: State, u: nat, a: Action, t: nat, o: Obj, n: int)
    requires Inv(s) && BagsThere(s) && Enabled(s, u, a) && (a.Publish? || a.Unlink? || a.RetirePtr?) && Waits(s, t, o, n)
    ensures var s' := Do(s, u, a);
      && t < |s'.threads| && s'.threads[t].epoch == s.threads[t].epoch && s'.threads[t].pc == s.threads[t].pc
      && Waits(s', t, o, n)
  {
    var s' := Do(s, u, a);
    var th, th' := s.threads[t], s'.threads[t];
    assert th'.bag == th.bag && |th'.toDelete| == MAX_BAGS && forall b :: 0 <= b < MAX_BAGS ==> th.toDelete[b] <= th'.toDelete[b];
    if n < 3 {
      var b :| InBagOfAge(th, b, o, n);
      assert InBagOfAge(th', b, o, n);
    }
  }

  // ----- runs

  lemma {:induction false} SameThreads(run: seq<State>, i: nat)
    requires IsRun(run) && i < |run|
    ensures |run[i].threads| == |run[0].threads|
  {
    if i > 0 {
      SameThreads(run, i - 1);
      assert StepAt(run, i - 1);
    }
  }

  lemma RetiredWaits(run: seq<State>, i: nat, t: nat, o: Obj)
    requires IsRun(run) && i + 1 < |run| && RetiresAt(run, i, t, o)
    ensures t < |run[i + 1].threads| && Rotated(run[i + 1].threads[t]) == 0 && Waits(run[i + 1], t, o, 0)
  {
    var th := run[i + 1].threads[t];
    NoUseAfterFree(run, i);
    assert PlaceOK(run[i], o);
    assert InBagOfAge(th, th.bag, o, 0);
  }

  lemma ThreadStays(run: seq<State>, i: nat, t: nat)
    requires IsRun(run) && i < |run| && t < |run[i].threads|
    ensures forall n :: 0 <= n < |run| ==> t < |run[n].threads|
  {
    SameThreads(run, i);
    forall n | 0 <= n < |run| ensures t < |run[n].threads| {
      SameThreads(run, n);
    }
  }

  lemma RunStepWaits(run: seq<State>, i: nat, t: nat, o: Obj, n: int)
    requires IsRun(run) && i + 1 < |run| && t < |run[i].threads| && Waits(run[i], t, o, n + Rotated(run[i].threads[t]))
    ensures t < |run[i + 1].threads|
    ensures Waits(run[i + 1], t, o,
      n + Rotated(run[i + 1].threads[t]) + if run[i].threads[t].epoch / 2 != run[i + 1].threads[t].epoch / 2 then 1 else 0)
  {
    NoUseAfterFree(run, i);
    assert StepAt(run, i);
    var u, a :| Enabled(run[i], u, a) && run[i + 1] == Do(run[i], u, a);
    StepWaits(run[i], u, a, t, o, n);
  }

  /** While the announced epoch has changed n times, the object is in a bag of age n. */
  lemma {:induction false} AgeIsChanges(run: seq<State>, i: nat, j: nat, t: nat, o: Obj)
    requires IsRun(run) && i < j < |run| && RetiresAt(run, i, t, o)
    ensures forall n :: 0 <= n < |run| ==> t < |run[n].threads|
    ensures Waits(run[j], t, o, Changes(run, i + 1, j, t) + Rotated(run[j].threads[t]))
    decreases j
  {
    ThreadStays(run, i, t);
    if j == i + 1 {
      RetiredWaits(run, i, t, o);
    } else {
      AgeIsChanges(run, i, j - 1, t, o);
      RunStepWaits(run, j - 1, t, o, Changes(run, i + 1, j - 1, t));
    }
  }

  /**
   * A retired object is destroyed exactly when the epoch that its thread announces has changed
   * three times, counting a change from the rotation of the bags that goes before its store.
   */
  lemma ThirdChangeDestroys(run: seq<State>, i: nat, j: nat, t: nat, o: Obj)
    requires IsRun(run) && i < j < |run| && RetiresAt(run, i, t, o)
    ensures forall n :: 0 <= n < |run| ==> t < |run[n].threads|
    ensures o in run[j].destroyed <==> Changes(run, i + 1, j, t) + Rotated(run[j].threads[t]) >= 3
  {
    AgeIsChanges(run, i, j, t, o);
  }

  lemma DestroyedOrInBag(run: seq<State>, i: nat, j: nat, t: nat, o: Obj)
    requires IsRun(run) && i < j < |run| && RetiresAt(run, i, t, o)
    ensures t < |run[j].threads| && (o in run[j].destroyed || exists b :: 0 <= b < |run[j].threads[t].toDelete| && o in run[j].threads[t].toDelete[b])
  {
    AgeIsChanges(run, i, j, t, o);
    var a := Changes(run, i + 1, j, t) + Rotated(run[j].threads[t]);
    if a < 3 {
      var b :| InBagOfAge(run[j].threads[t], b, o, a);
    }
  }

  /** When a thread has no undeleted objects, everything it has retired is destroyed. */
  lemma NothingUndeleted(run: seq<State>, i: nat, j: nat, t: nat, o: Obj)
    requires IsRun(run) && i < j < |run| && RetiresAt(run, i, t, o)
    ensures t < |run[j].threads|
    ensures !Undeleted(run[j].threads[t]) ==> o in run[j].destroyed
  {
    DestroyedOrInBag(run, i, j, t, o);
  }

  // ----- retire_sync

  /** Every other thread is idle. */
  ghost predicate OthersIdle(s: State, t: nat) {
    forall u :: 0 <= u < |s.threads| && u != t ==> s.threads[u].epoch % 2 == 1
  }

  /** The step that thread t does next inside retire(). */
  function RetireAction(pc: Pc): Action {
    match pc
    case SetEpoch(_, _) => Rotate
    case Store(_, _) => StoreEpoch
    case Check(_) => CheckThread
    case Cas(_) => RaiseEpoch
    case _ => Unlock
  }

  ghost predicate RetireStep(s: State, t: nat, s': State) {
    && BagsThere(s) && t < |s.threads| && !s.threads[t].pc.Out?
    && Enabled(s, t, RetireAction(s.threads[t].pc)) && s' == Do(s, t, RetireAction(s.threads[t].pc))
  }

  /** Thread t alone inside retire(), all others idle: after its first store its epoch is the global one. */
  ghost predicate Alone(s: State, t: nat) {
    && Inv(s) && BagsThere(s) && t < |s.threads| && OthersIdle(s, t)
    && var th := s.threads[t];
      match th.pc
      case SetEpoch(e, after) => e == s.global && (after == RetireStart || after == CheckEnd(InRetire))
      case Store(e, after) => e == s.global && (after == RetireStart || after == CheckEnd(InRetire))
      case Check(caller) => caller == InRetire && th.epoch / 2 == s.global
      case Cas(caller) => caller == InRetire && th.epoch / 2 == s.global
      case Out => true
      case _ => false
  }

  /** How many rotations empty all bags. */
  function Rounds(th: Thread): (d: nat)
    requires |th.toDelete| == MAX_BAGS && th.bag < MAX_BAGS
    ensures d <= 3 && (d == 0 <==> !Undeleted(th))
  {
    if th.toDelete[th.bag] != {} then 3
    else if th.toDelete[(th.bag + 2) % MAX_BAGS] != {} then 2
    else if th.toDelete[(th.bag + 1) % MAX_BAGS] != {} then 1
    else 0
  }

  lemma RotationEmpties(s: State, t: nat)
    requires Inv(s) && BagsThere(s) && Enabled(s, t, Rotate)
    ensures var th, th' := s.threads[t], Rotating(s, t).threads[t];
      && |th'.toDelete| == MAX_BAGS && th'.bag < MAX_BAGS
      && Rounds(th') == if th.epoch / 2 == th.pc.e || Rounds(th) == 0 then Rounds(th) else Rounds(th) - 1
  {
  }

  function Times(d: nat, k: nat): nat { if d == 0 then 0 else if d == 1 then k else if d == 2 then k + k else k + k + k }

  /** A bound on the steps that are left of retire(), with n threads. */
  function Left(th: Thread, n: nat): int
    requires |th.toDelete| == MAX_BAGS && th.bag < MAX_BAGS
  {
    LeftAt(th.pc, th.checked, Rounds(th), n + 4)
  }

  function LeftAt(pc: Pc, checked: nat, d: nat, k: nat): int {
    match pc
    case SetEpoch(_, after) => if after == RetireStart then Times(d, k) + k + 2 else if d == 0 then 2 else Times(d, k) + 2
    case Store(_, after) => if after == RetireStart || d > 0 then Times(d, k) + k + 1 else 1
    case Check(_) => Times(d, k) + k - checked
    case Cas(_) => Times(d, k) + 3
    case _ => 0
  }

  /** A step of t on the way to the end of retire(). */
  ghost predicate Nearer(s: State, t: nat, s': State) {
    && RetireStep(s, t, s') && Alone(s, t) && Alone(s', t) && |s'.threads| == |s.threads|
    && 0 <= Left(s'.threads[t], |s.threads|) < Left(s.threads[t], |s.threads|)
    && (s'.threads[t].pc.Out? ==> !Undeleted(s'.threads[t]))
  }

  lemma RotateNearer(s: State, t: nat)
    requires Alone(s, t) && s.threads[t].pc.SetEpoch? && Inv(Rotating(s, t))
    ensures Nearer(s, t, Rotating(s, t))
  {
    assert ThreadOK(s.threads[t], s.global, |s.threads|);
    RotationEmpties(s, t);
  }

  lemma SameBags(th: Thread, th': Thread)
    requires |th.toDelete| == MAX_BAGS && th.bag < MAX_BAGS && th'.toDelete == th.toDelete && th'.bag == th.bag
    ensures Rounds(th') == Rounds(th)
  {
  }

  lemma StoreNearer(s: State, t: nat)
    requires Alone(s, t) && s.threads[t].pc.Store? && Inv(Storing(s, t))
    ensures Nearer(s, t, Storing(s, t))
  {
    assert ThreadOK(s.threads[t], s.global, |s.threads|);
    SameBags(s.threads[t], Storing(s, t).threads[t]);
  }

  lemma CheckNearer(s: State, t: nat)
    requires Alone(s, t) && s.threads[t].pc.Check? && s.threads[t].checked < |s.threads| && Inv(Checking(s, t))
    ensures Nearer(s, t, Checking(s, t))
  {
    var th := s.threads[t];
    assert th.checked != t ==> s.threads[th.checked].epoch % 2 == 1;
    SameBags(th, Checking(s, t).threads[t]);
  }

  lemma RaiseNearer(s: State, t: nat)
    requires Alone(s, t) && s.threads[t].pc.Cas? && Inv(Raising(s, t))
    ensures Nearer(s, t, Raising(s, t))
  {
    SameBags(s.threads[t], Raising(s, t).threads[t]);
  }

  lemma AloneStep(s: State, t: nat) returns (s': State)
    requires Alone(s, t) && !s.threads[t].pc.Out?
    ensures Nearer(s, t, s')
  {
    var a := RetireAction(s.threads[t].pc);
    assert ThreadOK(s.threads[t], s.global, |s.threads|);
    s' := Do(s, t, a);
    StepInv(s, s');
    match s.threads[t].pc
    case SetEpoch(_, _) => RotateNearer(s, t);
    case Store(_, _) => StoreNearer(s, t);
    case Check(_) => CheckNearer(s, t);
    case Cas(_) => RaiseNearer(s, t);
    case _ =>
  }

  /** more: the states that t's own steps lead to from s, up to the return of retire(). */
  ghost predicate Finishes(s: State, t: nat, more: seq<State>)
    decreases |more|
  {
    && (more == [] ==> t < |s.threads| && s.threads[t].pc.Out?)
    && (more != [] ==> RetireStep(s, t, more[0]) && Finishes(more[0], t, more[1..]))
  }

  lemma {:induction false} RetireReturns(s: State, t: nat) returns (more: seq<State>)
    requires Alone(s, t) && (s.threads[t].pc.Out? ==> !Undeleted(s.threads[t]))
    ensures Finishes(s, t, more) && |more| <= Left(s.threads[t], |s.threads|)
    ensures var e := if more == [] then s else more[|more| - 1]; t < |e.threads| && e.threads[t].pc.Out? && !Undeleted(e.threads[t])
    decreases Left(s.threads[t], |s.threads|)
  {
    more := [];
    if !s.threads[t].pc.Out? {
      var s' := AloneStep(s, t);
      var rest := RetireReturns(s', t);
      more := [s'] + rest;
      assert more[1..] == rest;
    }
  }

  function Last(s: State, more: seq<State>): State { if more == [] then s else more[|more| - 1] }

  /** One turn of the loop of retire_sync from s: retire() to its end e, and then idle(). */
  ghost predicate SyncTurn(s: State, t: nat, inside: seq<State>, s': State) {
    && BagsThere(s) && Enabled(s, t, BeginRetire)
    && var begun := Do(s, t, BeginRetire);
      Finishes(begun, t, inside) && BagsThere(Last(begun, inside)) && Enabled(Last(begun, inside), t, Unlock)
      && s' == Do(Last(begun, inside), t, Unlock)
  }

  lemma Joined(run: seq<State>, more: seq<State>)
    requires more != [] && run != []
    ensures run + [more[0]] + more[1..] == run + more
    ensures (run + [more[0]])[|run|] == more[0] && |run + [more[0]]| == |run| + 1
    ensures Last(more[0], more[1..]) == Last(run[|run| - 1], more)
  {
  }

  ghost predicate RunTo(run: seq<State>, s: State) { IsRun(run) && run[|run| - 1] == s }

  lemma FirstStep(s: State, t: nat, more: seq<State>)
    requires Finishes(s, t, more) && more != []
    ensures Next(s, more[0]) && Finishes(more[0], t, more[1..])
  {
  }

  lemma {:induction false} RunOn(run: seq<State>, t: nat, more: seq<State>)
    requires IsRun(run) && Finishes(run[|run| - 1], t, more)
    ensures RunTo(run + more, Last(run[|run| - 1], more))
    decreases |more|
  {
    if more == [] {
      assert run + more == run;
    } else {
      FirstStep(run[|run| - 1], t, more);
      RunStep(run, more[0]);
      Joined(run, more);
      RunOn(run + [more[0]], t, more[1..]);
    }
  }

  lemma RunStep(run: seq<State>, s: State)
    requires IsRun(run) && Next(run[|run| - 1], s)
    ensures IsRun(run + [s])
  {
    var run' := run + [s];
    forall i | 0 <= i < |run'| - 1 ensures StepAt(run', i) {
      if i < |run| - 1 { assert StepAt(run, i); }
    }
  }

  lemma BeginsAlone(s: State, t: nat)
    requires Inv(s) && BagsThere(s) && t < |s.threads| && s.threads[t].pc.Out? && OthersIdle(s, t)
    ensures var s' := Do(s, t, BeginRetire);
      Alone(s', t) && Left(s'.threads[t], |s'.threads|) <= 4 * |s.threads| + 18 && |s'.threads| == |s.threads|
  {
    StepInv(s, Do(s, t, BeginRetire));
  }

  /** A turn of retire_sync, as a continuation of the run. */
  lemma TurnRuns(run: seq<State>, t: nat, inside: seq<State>)
    requires IsRun(run) && BagsThere(run[|run| - 1]) && Enabled(run[|run| - 1], t, BeginRetire)
    requires Finishes(Do(run[|run| - 1], t, BeginRetire), t, inside)
    requires var e := Last(Do(run[|run| - 1], t, BeginRetire), inside); t < |e.threads| && e.threads[t].pc.Out?
    ensures var begun := Do(run[|run| - 1], t, BeginRetire);
      var e := Last(begun, inside);
      && BagsThere(e) && Enabled(e, t, Unlock) && RunTo(run + [begun] + inside + [Do(e, t, Unlock)], Do(e, t, Unlock))
  {
    var begun := Do(run[|run| - 1], t, BeginRetire);
    RunStep(run, begun);
    RunOn(run + [begun], t, inside);
    var run2 := run + [begun] + inside;
    NoUseAfterFree(run2, |run2| - 1);
    RunStep(run2, Do(Last(begun, inside), t, Unlock));
  }

  lemma AllDestroyed(run: seq<State>, run': seq<State>, t: nat)
    requires run <= run' && |run| < |run'| && IsRun(run') && t < |run'[|run'| - 1].threads| && !Undeleted(run'[|run'| - 1].threads[t])
    ensures forall i, o :: 0 <= i && i + 1 < |run| && RetiresAt(run, i, t, o) ==> o in run'[|run'| - 1].destroyed
  {
    forall i, o | 0 <= i && i + 1 < |run| && RetiresAt(run, i, t, o) ensures o in run'[|run'| - 1].destroyed {
      assert run'[i] == run[i] && run'[i + 1] == run[i + 1];
      assert RetiresAt(run', i, t, o);
      NothingUndeleted(run', i, |run'| - 1, t, o);
    }
  }

  /**
   * If all other threads are idle, one turn of retire_sync takes at most 4n + 20 steps, for n
   * threads, and leaves nothing undeleted: all that t has retired is destroyed.
   */
  lemma RetireSyncEnds(run: seq<State>, t: nat) returns (inside: seq<State>, run': seq<State>)
    requires IsRun(run) && t < |run[|run| - 1].threads| && run[|run| - 1].threads[t].pc.Out? && OthersIdle(run[|run| - 1], t)
    ensures IsRun(run') && |run'| == |run| + |inside| + 2 && run <= run'
    ensures SyncTurn(run[|run| - 1], t, inside, run'[|run'| - 1])
    ensures |inside| <= 4 * |run[|run| - 1].threads| + 18
    ensures t < |run'[|run'| - 1].threads| && !Undeleted(run'[|run'| - 1].threads[t])
    ensures forall i, o :: 0 <= i && i + 1 < |run| && RetiresAt(run, i, t, o) ==> o in run'[|run'| - 1].destroyed
  {
    var s := run[|run| - 1];
    NoUseAfterFree(run, |run| - 1);
    var begun := Do(s, t, BeginRetire);
    BeginsAlone(s, t);
    inside := RetireReturns(begun, t);
    TurnRuns(run, t, inside);
    run' := run + [begun] + inside + [Do(Last(begun, inside), t, Unlock)];
    AllDestroyed(run, run', t);
  }

  // ----- how often lock() checks

  /** A step raises the count of locks without a check only where lock() goes on to a check. */
  lemma SkipsRise(s: State, u: nat, a: Action, t: nat)
    requires BagsThere(s) && Enabled(s, u, a) && t < |s.threads| && s.threads[t].toSkip <= 30
    ensures var th, th' := s.threads[t], Do(s, u, a).threads[t];
      && th'.toSkip <= 30
      && (th'.toSkip > th.toSkip ==> th.pc.SkipOrCheck? && th'.pc == Check(InLock))
      && (th.pc.SkipOrCheck? && th'.pc != th.pc ==> th'.toSkip < th.toSkip || (th.toSkip == 0 && th'.pc == Check(InLock)))
  {
  }

  /** So of 31 calls of lock() at least one checks a thread: the locks that are left without a check are at most 30, and each lowers them. */
  lemma {:induction false} SkipsAtMost30(run: seq<State>, i: nat, t: nat)
    requires IsRun(run) && i < |run| && t < |run[i].threads|
    ensures run[i].threads[t].toSkip <= 30
  {
    if i > 0 {
      SameThreads(run, i);
      SameThreads(run, i - 1);
      SkipsAtMost30(run, i - 1, t);
      assert StepAt(run, i - 1);
      var u, a :| Enabled(run[i - 1], u, a) && run[i] == Do(run[i - 1], u, a);
      SkipsRise(run[i - 1], u, a, t);
    }
  }
}
