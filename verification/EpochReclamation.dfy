/**
 * The epoch-based memory reclamation of pxcutils/pxc/utils/EpochBasedMemoryReclamation.h,
 * as a state machine with one step per atomic operation and any number of threads.
 *
 * A thread announces the epoch it saw when it locks.  The global epoch rises when one
 * thread has seen every thread idle or in the current epoch, one thread at a time.  A
 * retired object waits in one of three bags of its thread and is destroyed when the
 * thread has moved through three epochs.  The theorem at the end: no object is destroyed
 * while some thread inside its section may still reach it.
 */
module EpochReclamation {
  type Obj = nat

  const MAX_BAGS: nat := 3

  // ----- state

  datatype Caller = InLock | InRetire

  /** What follows the store that ends set_epoch. */
  datatype After = LockStart | RetireStart | CheckEnd(caller: Caller)

  datatype Pc =
    | Out                              // outside any call and outside a section
    | Section                          // lock() has returned
    | SetEpoch(e: nat, after: After)   // about to run set_epoch(e)
    | Store(e: nat, after: After)      // inside set_epoch, about to store the announcement
    | SkipOrCheck                      // in lock(), after set_epoch
    | Check(caller: Caller)            // in step_check, about to load the checked thread's announcement
    | Cas(caller: Caller)              // in step_check, about to raise the global epoch

  /**
   * epoch is the announcement: twice the epoch, plus one when idle.  The last two fields
   * are history: the global epoch at the last store, and the objects this thread may
   * reach while it is in its section.
   */
  datatype Thread = Thread(
    epoch: nat, toSkip: nat, checked: nat, bag: nat, toDelete: seq<set<Obj>>, pc: Pc,
    storedAt: nat, reach: set<Obj>)

  /** Where an object is: history that the invariant ties to the real fields. */
  datatype Place = Linked | Unlinked(owner: nat) | InBag(owner: nat, bag: nat) | Destroyed

  datatype State = State(
    global: nat, threads: seq<Thread>, linked: set<Obj>, destroyed: set<Obj>,
    place: map<Obj, Place>, retiredAt: map<Obj, nat>)

  function InitThread(): Thread {
    Thread(1, 0, 0, 0, [{}, {}, {}], Out, 0, {})
  }

  ghost predicate Init(s: State) {
    && s.global == 1
    && |s.threads| > 0
    && (forall t :: 0 <= t < |s.threads| ==> s.threads[t] == InitThread())
    && s.linked == {} && s.destroyed == {} && s.place == map[] && s.retiredAt == map[]
  }

  // ----- steps

  datatype Action =
    | Publish(o: Obj)      // the data structure links a new object
    | Unlink(o: Obj)       // and unlinks one
    | RetirePtr(o: Obj)    // retire(ptr) of an unlinked object
    | BeginLock            // lock(): load the global epoch
    | BeginRetire          // retire(): load the global epoch
    | Rotate               // set_epoch: the bag rotation, when the epoch changed
    | StoreEpoch           // set_epoch: the store
    | Skip                 // lock(): test and update to_skip
    | CheckThread          // step_check: load one announcement
    | RaiseEpoch           // step_check: compare and swap of the global epoch
    | Unlock               // unlock(), or the idle() of retire_sync

  function Put(s: State, t: nat, th: Thread): State
    requires t < |s.threads|
  {
    s.(threads := s.threads[t := th])
  }

  function Undeleted(th: Thread): bool {
    exists b :: 0 <= b < |th.toDelete| && th.toDelete[b] != {}
  }

  /** Where control goes when step_check returns. */
  function CheckReturns(th: Thread, caller: Caller, ok: bool): Pc {
    match caller
    case InLock => Section
    case InRetire => if ok && Undeleted(th) then Check(InRetire) else Out
  }

  function PcAfter(th: Thread, after: After): Pc {
    match after
    case LockStart => SkipOrCheck
    case RetireStart => Check(InRetire)
    case CheckEnd(caller) => CheckReturns(th, caller, true)
  }

  /** A thread whose lock() returns can reach what is linked now; outside a section it reaches nothing. */
  function Enter(s: State, th: Thread, pc: Pc): Thread {
    th.(pc := pc, reach := if pc == Section then s.linked else {})
  }

  ghost predicate Enabled(s: State, t: nat, a: Action) {
    t < |s.threads| &&
    var th := s.threads[t];
    match a
    case Publish(o) => o !in s.place
    case Unlink(o) => o in s.linked
    case RetirePtr(o) => o in s.place && s.place[o] == Unlinked(t) && (th.pc.Out? || th.pc.Section?)
    case BeginLock => th.pc.Out?
    case BeginRetire => th.pc.Out?
    case Rotate => th.pc.SetEpoch?
    case StoreEpoch => th.pc.Store?
    case Skip => th.pc.SkipOrCheck?
    case CheckThread => th.pc.Check? && th.checked < |s.threads|
    case RaiseEpoch => th.pc.Cas?
    case Unlock => th.pc.Out? || th.pc.Section?
  }

  function Publishing(s: State, o: Obj): State {
    s.(linked := s.linked + {o},
       place := s.place[o := Linked],
       threads := seq(|s.threads|, i requires 0 <= i < |s.threads| =>
         if s.threads[i].pc.Section? then s.threads[i].(reach := s.threads[i].reach + {o}) else s.threads[i]))
  }

  function Unlinking(s: State, t: nat, o: Obj): State {
    s.(linked := s.linked - {o}, place := s.place[o := Unlinked(t)])
  }

  function Retiring(s: State, t: nat, o: Obj): State
    requires t < |s.threads| && s.threads[t].bag < |s.threads[t].toDelete|
  {
    var th := s.threads[t];
    Put(s, t, th.(toDelete := th.toDelete[th.bag := th.toDelete[th.bag] + {o}]))
      .(place := s.place[o := InBag(t, th.bag)], retiredAt := s.retiredAt[o := s.global])
  }

  function Rotating(s: State, t: nat): State
    requires t < |s.threads| && s.threads[t].pc.SetEpoch? && |s.threads[t].toDelete| == MAX_BAGS
  {
    var th := s.threads[t];
    var moved := th.(pc := Store(th.pc.e, th.pc.after));
    if th.epoch / 2 == th.pc.e then
      Put(s, t, moved)
    else
      var bag := (th.bag + 1) % MAX_BAGS;
      var dead := th.toDelete[bag];
      Put(s, t, moved.(checked := 0, toSkip := 0, bag := bag, toDelete := th.toDelete[bag := {}]))
        .(destroyed := s.destroyed + dead,
          place := map o | o in s.place :: if o in dead then Destroyed else s.place[o])
  }

  function Storing(s: State, t: nat): State
    requires t < |s.threads| && s.threads[t].pc.Store?
  {
    var th := s.threads[t];
    Put(s, t, Enter(s, th.(epoch := 2 * th.pc.e, storedAt := s.global), PcAfter(th, th.pc.after)))
  }

  function Skipping(s: State, t: nat): State
    requires t < |s.threads|
  {
    var th := s.threads[t];
    if th.toSkip == 0 then Put(s, t, th.(toSkip := 30, pc := Check(InLock)))
    else Put(s, t, Enter(s, th.(toSkip := th.toSkip - 1), Section))
  }

  function Checking(s: State, t: nat): State
    requires t < |s.threads| && s.threads[t].pc.Check? && s.threads[t].checked < |s.threads|
  {
    var th := s.threads[t];
    var seen := s.threads[th.checked].epoch;
    if seen % 2 == 1 || seen / 2 == th.epoch / 2 then
      var th' := th.(checked := th.checked + 1);
      if th'.checked == |s.threads| then Put(s, t, th'.(pc := Cas(th.pc.caller)))
      else Put(s, t, Enter(s, th', CheckReturns(th', th.pc.caller, true)))
    else
      Put(s, t, Enter(s, th, CheckReturns(th, th.pc.caller, false)))
  }

  function Raising(s: State, t: nat): State
    requires t < |s.threads| && s.threads[t].pc.Cas?
  {
    var th := s.threads[t];
    if s.global == th.epoch / 2 then
      Put(s, t, th.(pc := SetEpoch(s.global + 1, CheckEnd(th.pc.caller)))).(global := s.global + 1)
    else
      Put(s, t, th.(pc := SetEpoch(s.global, CheckEnd(th.pc.caller))))
  }

  function Idling(s: State, t: nat): State
    requires t < |s.threads|
  {
    var th := s.threads[t];
    Put(s, t, Enter(s, th.(epoch := if th.epoch % 2 == 0 then th.epoch + 1 else th.epoch), Out))
  }

  function Do(s: State, t: nat, a: Action): State
    requires Enabled(s, t, a) && BagsThere(s)
  {
    var th := s.threads[t];
    match a
    case Publish(o) => Publishing(s, o)
    case Unlink(o) => Unlinking(s, t, o)
    case RetirePtr(o) => Retiring(s, t, o)
    case BeginLock => Put(s, t, th.(pc := SetEpoch(s.global, LockStart)))
    case BeginRetire => Put(s, t, th.(pc := SetEpoch(s.global, RetireStart)))
    case Rotate => Rotating(s, t)
    case StoreEpoch => Storing(s, t)
    case Skip => Skipping(s, t)
    case CheckThread => Checking(s, t)
    case RaiseEpoch => Raising(s, t)
    case Unlock => Idling(s, t)
  }

  ghost predicate BagsThere(s: State) {
    forall t :: 0 <= t < |s.threads| ==> |s.threads[t].toDelete| == MAX_BAGS && s.threads[t].bag < MAX_BAGS
  }

  ghost predicate Next(s: State, s': State) {
    BagsThere(s) && exists t, a :: Enabled(s, t, a) && s' == Do(s, t, a)
  }

  // ----- the invariant

  /** How many times the thread has rotated its bags since it put objects into bag b. */
  function Age(bag: nat, b: nat): nat
    requires bag < MAX_BAGS && b < MAX_BAGS
  {
    (bag + MAX_BAGS - b) % MAX_BAGS
  }

  /** The last epoch the thread has rotated for. */
  function Current(th: Thread): nat {
    if th.pc.Store? then th.pc.e else th.epoch / 2
  }

  ghost predicate ThreadOK(th: Thread, global: nat, n: nat) {
    && |th.toDelete| == MAX_BAGS && th.bag < MAX_BAGS
    && th.epoch / 2 <= global
    && (th.epoch % 2 == 0 ==> th.epoch / 2 <= th.storedAt <= global <= th.storedAt + 1)
    && th.checked <= n
    && (th.checked == n ==> th.pc.Cas? || (th.pc.SetEpoch? && th.pc.after.CheckEnd?))
    && (th.pc.Cas? ==> th.checked == n)
    && (th.pc.SetEpoch? ==> th.epoch / 2 <= th.pc.e <= global && (th.pc.after.CheckEnd? ==> th.pc.e != th.epoch / 2))
    && (th.pc.Store? ==> th.epoch / 2 <= th.pc.e <= global && (th.pc.e != th.epoch / 2 ==> th.checked == 0))
    && (th.pc.Section? ==> th.epoch % 2 == 0)
    && (th.pc.Section? || th.reach == {})
    && (th.pc.SkipOrCheck? || th.pc.Check? || th.pc.Cas? ==> th.epoch % 2 == 0)
  }

  /** Every thread that u has passed is idle or stored its announcement in u's epoch or later. */
  ghost predicate PassedOK(u: Thread, v: Thread) {
    v.epoch % 2 == 0 ==> v.storedAt >= u.epoch / 2
  }

  ghost predicate PlaceOK(s: State, o: Obj) {
    && (o in s.linked <==> o in s.place && s.place[o].Linked?)
    && (o in s.destroyed <==> o in s.place && s.place[o].Destroyed?)
  }

  ghost predicate BagOK(s: State, t: nat, b: nat, o: Obj)
    requires t < |s.threads| && b < |s.threads[t].toDelete|
  {
    o in s.threads[t].toDelete[b] <==> o in s.place && s.place[o] == InBag(t, b)
  }

  /** A bag that was rotated d times since the object came in has seen d distinct epochs since. */
  ghost predicate AgeOK(s: State, th: Thread, b: nat, o: Obj)
    requires |th.toDelete| == MAX_BAGS && th.bag < MAX_BAGS && b < MAX_BAGS
  {
    && o in s.retiredAt && s.retiredAt[o] <= s.global
    && (Age(th.bag, b) >= 1 ==> Current(th) + 1 >= s.retiredAt[o] + Age(th.bag, b))
    && (th.pc.SetEpoch? ==> s.retiredAt[o] <= th.pc.e)
  }

  /** What a thread in its section reaches was linked when it stored its announcement, or later. */
  ghost predicate ReachOK(s: State, th: Thread, o: Obj) {
    && o in s.place && !s.place[o].Destroyed?
    && (s.place[o].InBag? ==> o in s.retiredAt && th.storedAt <= s.retiredAt[o])
  }

  ghost predicate Inv(s: State) {
    && |s.threads| > 0
    && (forall t :: 0 <= t < |s.threads| ==> ThreadOK(s.threads[t], s.global, |s.threads|))
    && (forall u, v :: 0 <= u < |s.threads| && 0 <= v < s.threads[u].checked ==> PassedOK(s.threads[u], s.threads[v]))
    && (forall o :: PlaceOK(s, o))
    && (forall t, b, o :: 0 <= t < |s.threads| && 0 <= b < MAX_BAGS ==> BagOK(s, t, b, o))
    && (forall t, b, o :: 0 <= t < |s.threads| && 0 <= b < MAX_BAGS && o in s.threads[t].toDelete[b] ==> AgeOK(s, s.threads[t], b, o))
    && (forall t, o :: 0 <= t < |s.threads| && o in s.threads[t].reach ==> ReachOK(s, s.threads[t], o))
  }

  /** No thread can reach a destroyed object, through the structure or from inside its section. */
  ghost predicate Safe(s: State) {
    && s.destroyed !! s.linked
    && forall t :: 0 <= t < |s.threads| ==> s.destroyed !! s.threads[t].reach
  }

  lemma InvSafe(s: State)
    requires Inv(s)
    ensures Safe(s)
  {
    forall o | o in s.destroyed ensures o !in s.linked && forall t :: 0 <= t < |s.threads| ==> o !in s.threads[t].reach {
      assert PlaceOK(s, o);
      assert forall t :: 0 <= t < |s.threads| && o in s.threads[t].reach ==> ReachOK(s, s.threads[t], o);
    }
  }

  lemma InitInv(s: State)
    requires Init(s)
    ensures Inv(s)
  {
  }

  // ----- every step keeps the invariant

  lemma PublishInv(s: State, o: Obj)
    requires Inv(s) && o !in s.place
    ensures Inv(Publishing(s, o))
  {
    var s' := Publishing(s, o);
    forall p ensures PlaceOK(s', p) { assert PlaceOK(s, p); }
    forall t, b, p | 0 <= t < |s.threads| && 0 <= b < MAX_BAGS ensures BagOK(s', t, b, p) {
      assert BagOK(s, t, b, p);
    }
    forall t, b, p | 0 <= t < |s'.threads| && 0 <= b < MAX_BAGS && p in s'.threads[t].toDelete[b]
      ensures AgeOK(s', s'.threads[t], b, p)
    {
      assert AgeOK(s, s.threads[t], b, p);
    }
    forall t, p | 0 <= t < |s'.threads| && p in s'.threads[t].reach ensures ReachOK(s', s'.threads[t], p) {
      if p != o { assert ReachOK(s, s.threads[t], p); }
    }
    forall u, v | 0 <= u < |s'.threads| && 0 <= v < s'.threads[u].checked ensures PassedOK(s'.threads[u], s'.threads[v]) {
      assert PassedOK(s.threads[u], s.threads[v]);
    }
  }

  lemma UnlinkInv(s: State, t: nat, o: Obj)
    requires Inv(s) && t < |s.threads| && o in s.linked
    ensures Inv(Unlinking(s, t, o))
  {
    var s' := Unlinking(s, t, o);
    assert PlaceOK(s, o);
    forall p ensures PlaceOK(s', p) { assert PlaceOK(s, p); }
    forall u, b, p | 0 <= u < |s.threads| && 0 <= b < MAX_BAGS ensures BagOK(s', u, b, p) {
      assert BagOK(s, u, b, p);
    }
    forall u, b, p | 0 <= u < |s'.threads| && 0 <= b < MAX_BAGS && p in s'.threads[u].toDelete[b]
      ensures AgeOK(s', s'.threads[u], b, p)
    {
      assert AgeOK(s, s.threads[u], b, p);
    }
    forall u, p | 0 <= u < |s'.threads| && p in s'.threads[u].reach ensures ReachOK(s', s'.threads[u], p) {
      assert ReachOK(s, s.threads[u], p);
    }
  }

  lemma RetireAge(s: State, t: nat, o: Obj, u: nat, b: nat, p: Obj)
    requires Inv(s) && Enabled(s, t, RetirePtr(o)) && BagsThere(s) && u < |s.threads| && b < MAX_BAGS
    requires var th := Retiring(s, t, o).threads[u]; b < |th.toDelete| && p in th.toDelete[b]
    ensures AgeOK(Retiring(s, t, o), Retiring(s, t, o).threads[u], b, p)
  {
    assert PlaceOK(s, o);
    assert ThreadOK(s.threads[t], s.global, |s.threads|);
    assert BagOK(s, u, b, p) && BagOK(s, u, b, o);
    if p != o { assert AgeOK(s, s.threads[u], b, p); }
  }

  lemma RetireInv(s: State, t: nat, o: Obj)
    requires Inv(s) && Enabled(s, t, RetirePtr(o)) && BagsThere(s)
    ensures Inv(Retiring(s, t, o))
  {
    var s' := Retiring(s, t, o);
    assert PlaceOK(s, o);
    assert ThreadOK(s.threads[t], s.global, |s.threads|);
    forall p ensures PlaceOK(s', p) { assert PlaceOK(s, p); }
    forall u, b, p | 0 <= u < |s.threads| && 0 <= b < MAX_BAGS ensures BagOK(s', u, b, p) {
      assert BagOK(s, u, b, p);
    }
    forall u, b, p | 0 <= u < |s'.threads| && 0 <= b < MAX_BAGS && p in s'.threads[u].toDelete[b]
      ensures AgeOK(s', s'.threads[u], b, p)
    {
      RetireAge(s, t, o, u, b, p);
    }
    forall u, p | 0 <= u < |s'.threads| && p in s'.threads[u].reach ensures ReachOK(s', s'.threads[u], p) {
      assert ReachOK(s, s.threads[u], p);
      assert ThreadOK(s.threads[u], s.global, |s.threads|);
    }
    forall u, v | 0 <= u < |s'.threads| && 0 <= v < s'.threads[u].checked ensures PassedOK(s'.threads[u], s'.threads[v]) {
      assert PassedOK(s.threads[u], s.threads[v]);
    }
  }

  /** A step of thread t that touches only its own fields, and neither its bags nor the history of objects. */
  lemma LocalInv(s: State, t: nat, th: Thread)
    requires Inv(s) && t < |s.threads|
    requires th.toDelete == s.threads[t].toDelete && th.bag == s.threads[t].bag
    requires ThreadOK(th, s.global, |s.threads|)
    requires Current(th) == Current(s.threads[t])
    requires th.pc.SetEpoch? ==> th.pc.e == s.global
    requires th.reach == {} || th.reach == s.threads[t].reach || th.reach == s.linked
    requires forall v :: 0 <= v < th.checked ==> PassedOK(th, if v == t then th else s.threads[v])
    requires forall u :: 0 <= u < |s.threads| && u != t && t < s.threads[u].checked ==> PassedOK(s.threads[u], th)
    requires th.reach != {} && th.reach != s.linked ==> th.storedAt == s.threads[t].storedAt
    ensures Inv(Put(s, t, th))
  {
    var s' := Put(s, t, th);
    forall p ensures PlaceOK(s', p) { assert PlaceOK(s, p); }
    forall u, b, p | 0 <= u < |s.threads| && 0 <= b < MAX_BAGS ensures BagOK(s', u, b, p) {
      assert BagOK(s, u, b, p);
    }
    forall u, b, p | 0 <= u < |s'.threads| && 0 <= b < MAX_BAGS && p in s'.threads[u].toDelete[b]
      ensures AgeOK(s', s'.threads[u], b, p)
    {
      assert AgeOK(s, s.threads[u], b, p);
    }
    forall u, p | 0 <= u < |s'.threads| && p in s'.threads[u].reach ensures ReachOK(s', s'.threads[u], p) {
      assert PlaceOK(s, p);
      if u != t || th.reach == s.threads[t].reach { assert ReachOK(s, s.threads[u], p); }
    }
    forall u, v | 0 <= u < |s'.threads| && 0 <= v < s'.threads[u].checked ensures PassedOK(s'.threads[u], s'.threads[v]) {
      if u != t && v != t { assert PassedOK(s.threads[u], s.threads[v]); }
    }
  }

  /** Three bags suffice: a bag that is about to be emptied holds nothing a section can still reach. */
  lemma ThreeBagsSuffice(s: State, t: nat, v: nat, o: Obj)
    requires Inv(s) && t < |s.threads| && v < |s.threads|
    requires s.threads[t].pc.SetEpoch? && s.threads[t].epoch / 2 != s.threads[t].pc.e
    requires o in s.threads[t].toDelete[(s.threads[t].bag + 1) % MAX_BAGS]
    ensures o !in s.threads[v].reach
  {
    var b := (s.threads[t].bag + 1) % MAX_BAGS;
    assert BagOK(s, t, b, o) && AgeOK(s, s.threads[t], b, o);
    assert Age(s.threads[t].bag, b) == 2;
    assert ThreadOK(s.threads[t], s.global, |s.threads|) && ThreadOK(s.threads[v], s.global, |s.threads|);
    assert s.global >= s.retiredAt[o] + 2;
    assert o in s.threads[v].reach ==> ReachOK(s, s.threads[v], o);
  }

  lemma RotateAges(s: State, t: nat, b: nat, o: Obj)
    requires Inv(s) && t < |s.threads| && b < MAX_BAGS && s.threads[t].pc.SetEpoch?
    requires s.threads[t].epoch / 2 != s.threads[t].pc.e
    requires o in Rotating(s, t).threads[t].toDelete[b]
    ensures AgeOK(Rotating(s, t), Rotating(s, t).threads[t], b, o)
  {
    var th := s.threads[t];
    assert ThreadOK(th, s.global, |s.threads|);
    assert o in th.toDelete[b] && AgeOK(s, th, b, o);
    var bag := (th.bag + 1) % MAX_BAGS;
    assert b != bag ==> Age(bag, b) == Age(th.bag, b) + 1;
  }

  lemma RotateInv(s: State, t: nat)
    requires Inv(s) && t < |s.threads| && s.threads[t].pc.SetEpoch?
    requires s.threads[t].epoch / 2 != s.threads[t].pc.e
    ensures Inv(Rotating(s, t))
  {
    var s' := Rotating(s, t);
    var th, th' := s.threads[t], s'.threads[t];
    var dead := th.toDelete[th'.bag];
    assert ThreadOK(th, s.global, |s.threads|);
    forall o | o in dead ensures o in s.place && s.place[o] == InBag(t, th'.bag) {
      assert BagOK(s, t, th'.bag, o);
    }
    forall p ensures PlaceOK(s', p) { assert PlaceOK(s, p); }
    forall u, b, p | 0 <= u < |s.threads| && 0 <= b < MAX_BAGS ensures BagOK(s', u, b, p) {
      assert BagOK(s, u, b, p);
    }
    forall u, b, p | 0 <= u < |s'.threads| && 0 <= b < MAX_BAGS && p in s'.threads[u].toDelete[b]
      ensures AgeOK(s', s'.threads[u], b, p)
    {
      if u == t { RotateAges(s, t, b, p); } else { assert AgeOK(s, s.threads[u], b, p); }
    }
    forall u, p | 0 <= u < |s'.threads| && p in s'.threads[u].reach ensures ReachOK(s', s'.threads[u], p) {
      assert ReachOK(s, s.threads[u], p);
      if p in dead { ThreeBagsSuffice(s, t, u, p); }
    }
    forall u, v | 0 <= u < |s'.threads| && 0 <= v < s'.threads[u].checked ensures PassedOK(s'.threads[u], s'.threads[v]) {
      assert PassedOK(s.threads[u], s.threads[v]);
    }
  }

  lemma RaiseInv(s: State, t: nat)
    requires Inv(s) && t < |s.threads| && s.threads[t].pc.Cas? && s.global == s.threads[t].epoch / 2
    ensures Inv(Raising(s, t))
  {
    var s' := Raising(s, t);
    assert ThreadOK(s.threads[t], s.global, |s.threads|);
    forall u | 0 <= u < |s.threads| ensures ThreadOK(s'.threads[u], s'.global, |s'.threads|) {
      assert ThreadOK(s.threads[u], s.global, |s.threads|);
      assert PassedOK(s.threads[t], s.threads[u]);
    }
    forall p ensures PlaceOK(s', p) { assert PlaceOK(s, p); }
    forall u, b, p | 0 <= u < |s.threads| && 0 <= b < MAX_BAGS ensures BagOK(s', u, b, p) {
      assert BagOK(s, u, b, p);
    }
    forall u, b, p | 0 <= u < |s'.threads| && 0 <= b < MAX_BAGS && p in s'.threads[u].toDelete[b]
      ensures AgeOK(s', s'.threads[u], b, p)
    {
      assert AgeOK(s, s.threads[u], b, p);
    }
    forall u, p | 0 <= u < |s'.threads| && p in s'.threads[u].reach ensures ReachOK(s', s'.threads[u], p) {
      assert ReachOK(s, s.threads[u], p);
    }
    forall u, v | 0 <= u < |s'.threads| && 0 <= v < s'.threads[u].checked ensures PassedOK(s'.threads[u], s'.threads[v]) {
      assert PassedOK(s.threads[u], s.threads[v]);
    }
  }

  /** The steps that change one thread only, and neither its bags nor the global epoch. */
  ghost predicate Local(s: State, t: nat, a: Action)
    requires Enabled(s, t, a)
  {
    a.BeginLock? || a.BeginRetire? || a.StoreEpoch? || a.Skip? || a.CheckThread? || a.Unlock?
    || (a.Rotate? && s.threads[t].epoch / 2 == s.threads[t].pc.e)
    || (a.RaiseEpoch? && s.global != s.threads[t].epoch / 2)
  }

  lemma LocalShape(s: State, t: nat, a: Action)
    requires Inv(s) && BagsThere(s) && Enabled(s, t, a) && Local(s, t, a)
    ensures Do(s, t, a).threads == s.threads[t := Do(s, t, a).threads[t]]
    ensures Do(s, t, a) == Put(s, t, Do(s, t, a).threads[t])
    ensures ThreadOK(Do(s, t, a).threads[t], s.global, |s.threads|)
  {
    assert ThreadOK(s.threads[t], s.global, |s.threads|);
  }

  lemma LocalFields(s: State, t: nat, a: Action)
    requires Inv(s) && BagsThere(s) && Enabled(s, t, a) && Local(s, t, a)
    ensures var th, th' := s.threads[t], Do(s, t, a).threads[t];
      && th'.toDelete == th.toDelete && th'.bag == th.bag && Current(th') == Current(th)
      && (th'.pc.SetEpoch? ==> th'.pc.e == s.global)
      && (th'.reach == {} || th'.reach == s.linked)
      && (th'.checked > 0 ==> th'.epoch / 2 == th.epoch / 2)
      && (th'.checked == th.checked ||
          (a.CheckThread? && th'.checked == th.checked + 1 && th'.epoch == th.epoch
           && (s.threads[th.checked].epoch % 2 == 1 || s.threads[th.checked].epoch / 2 == th.epoch / 2)))
      && (th'.epoch % 2 == 0 ==> (th'.storedAt == s.global || (th'.storedAt == th.storedAt && th.epoch == th'.epoch)))
      && (a.CheckThread? ==> th'.storedAt == th.storedAt)
  {
    assert ThreadOK(s.threads[t], s.global, |s.threads|);
  }

  lemma LocalStep(s: State, t: nat, a: Action)
    requires Inv(s) && BagsThere(s) && Enabled(s, t, a) && Local(s, t, a)
    ensures Inv(Do(s, t, a))
  {
    LocalShape(s, t, a);
    LocalFields(s, t, a);
    var th, th' := s.threads[t], Do(s, t, a).threads[t];
    forall v | 0 <= v < th'.checked ensures PassedOK(th', if v == t then th' else s.threads[v]) {
      assert v < th.checked ==> PassedOK(th, s.threads[v]);
      assert ThreadOK(s.threads[v], s.global, |s.threads|);
    }
    forall u | 0 <= u < |s.threads| && u != t && t < s.threads[u].checked ensures PassedOK(s.threads[u], th') {
      assert PassedOK(s.threads[u], th);
      assert ThreadOK(s.threads[u], s.global, |s.threads|);
    }
    LocalInv(s, t, th');
  }

  lemma StepInv(s: State, s': State)
    requires Inv(s) && Next(s, s')
    ensures Inv(s')
  {
    var t, a :| Enabled(s, t, a) && s' == Do(s, t, a);
    match a
    case Publish(o) => PublishInv(s, o);
    case Unlink(o) => UnlinkInv(s, t, o);
    case RetirePtr(o) => RetireInv(s, t, o);
    case Rotate => if s.threads[t].epoch / 2 == s.threads[t].pc.e { LocalStep(s, t, a); } else { RotateInv(s, t); }
    case RaiseEpoch => if s.global == s.threads[t].epoch / 2 { RaiseInv(s, t); } else { LocalStep(s, t, a); }
    case _ => LocalStep(s, t, a);
  }

  // ----- whole runs

  ghost predicate StepAt(run: seq<State>, i: int)
    requires 0 <= i < |run| - 1
  {
    Next(run[i], run[i + 1])
  }

  ghost predicate IsRun(run: seq<State>) {
    run != [] && Init(run[0]) && forall i :: 0 <= i < |run| - 1 ==> StepAt(run, i)
  }

  /** In every state of every run, nothing a thread can reach has been destroyed. */
  lemma {:induction false} NoUseAfterFree(run: seq<State>, i: nat)
    requires IsRun(run) && i < |run|
    ensures Inv(run[i]) && Safe(run[i])
  {
    if i == 0 {
      InitInv(run[0]);
    } else {
      NoUseAfterFree(run, i - 1);
      assert StepAt(run, i - 1);
      StepInv(run[i - 1], run[i]);
    }
    InvSafe(run[i]);
  }
}
