/**
 * The worker parking protocol of pxcutils/pxc/utils/MpmcWaiter.h (MpmcSleepyWaiter), as a
 * state machine with one step per atomic operation on the packed counter and per change of
 * mutex ownership, for any number of workers and of other notifying threads.
 *
 * Work is a counter: whoever publishes an item calls notify() afterwards, and a search
 * pass takes an item whenever there is one.  The theorems: no CHECK of the code can fail,
 * and published work is never left behind with workers asleep and nobody about to look.
 */
module SleepyWaiter {

  // ----- the packed counter

  const PARK: int := 0x1_0000

  function ParkedCount(packed: int): int { packed / PARK }

  function SearchingCount(packed: int): int { packed % PARK }

  // ----- state

  /** Inside notify(). */
  datatype Notify =
    | Quiet
    | FirstLoad                 // about to load the counter without the mutex
    | WantMutex
    | SecondLoad                // holds the mutex, about to load again
    | Popped(target: nat)       // took a sleeper off, about to update the counter
    | Unparking(target: nat)    // about to unpark it and release

  datatype Pc =
    | External               // not a worker
    | Work
    | Look                   // searching, announced in the counter
    | Looked                 // found nothing, wants the mutex to park
    | Adding                 // holds the mutex, about to update the counter
    | Pushing(last: bool)    // holds the mutex, about to join the sleepers
    | OnceLook               // joined the sleepers as the last searcher: searches once more
    | ToPark                 // in park(): waits for its flag
    | StopLock               // found work on that pass, wants the mutex
    | StopHold               // holds the mutex, about to look itself up
    | StopErased             // left the sleepers, about to update the counter
    | StopCancel             // was popped meanwhile: must cancel the unpark
    | StopSub                // about to leave the searchers

  /** counted is history: the thread's share of the counter's searching part. */
  datatype Thread = Thread(pc: Pc, unparkFlag: bool, notify: Notify, counted: bool)

  datatype Owner = Free | Held(holder: nat)

  datatype State = State(packed: int, owner: Owner, sleepers: seq<nat>, threads: seq<Thread>, work: nat)

  ghost predicate Init(s: State) {
    && s.packed == 0 && s.owner == Free && s.sleepers == [] && s.work == 0
    && |s.threads| < 1000
    && forall t :: 0 <= t < |s.threads| ==>
         s.threads[t] == Thread(Work, false, Quiet, false) || s.threads[t] == Thread(External, false, Quiet, false)
  }

  // ----- steps

  datatype Action =
    | Publish | Load1 | Lock | Load2 | UpdatePopped | Unpark
    | StartSearch | Search | Add | Push | Resume | Find | UpdateErased | Cancel | LeaveSearch

  function Put(s: State, t: nat, th: Thread): State
    requires t < |s.threads|
  {
    s.(threads := s.threads[t := th])
  }

  function Without(a: seq<nat>, t: nat): seq<nat> {
    if a == [] then [] else if a[0] == t then a[1..] else [a[0]] + Without(a[1..], t)
  }

  /** Is thread t waiting for the mutex? */
  predicate Wants(th: Thread) {
    th.notify == WantMutex || (th.notify == Quiet && (th.pc == Looked || th.pc == StopLock))
  }

  ghost predicate Enabled(s: State, t: nat, a: Action) {
    t < |s.threads| &&
    var th := s.threads[t];
    match a
    case Publish => th.notify == Quiet && (th.pc == Work || th.pc == External)
    case Load1 => th.notify == FirstLoad
    case Lock => Wants(th) && s.owner == Free
    case Load2 => th.notify == SecondLoad
    case UpdatePopped => th.notify.Popped?
    case Unpark => th.notify.Unparking? && th.notify.target < |s.threads|
    case StartSearch => th.notify == Quiet && th.pc == Work
    case Search => th.notify == Quiet && (th.pc == Look || th.pc == OnceLook)
    case Add => th.pc == Adding
    case Push => th.pc.Pushing?
    case Resume => th.pc == ToPark && th.unparkFlag
    case Find => th.pc == StopHold
    case UpdateErased => th.pc == StopErased
    case Cancel => th.pc == StopCancel
    case LeaveSearch => th.pc == StopSub && th.notify == Quiet
  }

  function Locking(s: State, t: nat): State
    requires t < |s.threads|
  {
    var th := s.threads[t];
    Put(s, t,
        if th.notify == WantMutex then th.(notify := SecondLoad)
        else if th.pc == Looked then th.(pc := Adding)
        else th.(pc := StopHold)).(owner := Held(t))
  }

  function Loading1(s: State, t: nat): State
    requires t < |s.threads|
  {
    var th := s.threads[t];
    if SearchingCount(s.packed) > 0 || ParkedCount(s.packed) == 0 then Put(s, t, th.(notify := Quiet))
    else Put(s, t, th.(notify := WantMutex))
  }

  function Loading2(s: State, t: nat): State
    requires t < |s.threads|
  {
    var th := s.threads[t];
    if SearchingCount(s.packed) > 0 || s.sleepers == [] then Put(s, t, th.(notify := Quiet)).(owner := Free)
    else
      Put(s, t, th.(notify := Popped(s.sleepers[|s.sleepers| - 1])))
        .(sleepers := s.sleepers[..|s.sleepers| - 1])
  }

  function UpdatingPopped(s: State, t: nat): State
    requires t < |s.threads| && s.threads[t].notify.Popped?
  {
    var target := s.threads[t].notify.target;
    var s1 := Put(s, t, s.threads[t].(notify := Unparking(target)));
    (if target < |s1.threads| then Put(s1, target, s1.threads[target].(counted := true)) else s1)
      .(packed := s.packed - (PARK - 1))
  }

  function Unparks(s: State, t: nat): State
    requires t < |s.threads| && s.threads[t].notify.Unparking? && s.threads[t].notify.target < |s.threads|
  {
    var target := s.threads[t].notify.target;
    var s1 := Put(s, t, s.threads[t].(notify := Quiet));
    Put(s1, target, s1.threads[target].(unparkFlag := true)).(owner := Free)
  }

  function Searching(s: State, t: nat): State
    requires t < |s.threads|
  {
    var th := s.threads[t];
    if s.work > 0 then
      Put(s, t, th.(pc := if th.pc == Look then StopSub else StopLock)).(work := s.work - 1)
    else
      Put(s, t, th.(pc := if th.pc == Look then Looked else ToPark))
  }

  function AddingOne(s: State, t: nat): State
    requires t < |s.threads|
  {
    Put(s, t, s.threads[t].(pc := Pushing(SearchingCount(s.packed) == 1), counted := false))
      .(packed := s.packed + (PARK - 1))
  }

  function PushingOne(s: State, t: nat): State
    requires t < |s.threads| && s.threads[t].pc.Pushing?
  {
    Put(s, t, s.threads[t].(pc := if s.threads[t].pc.last then OnceLook else ToPark))
      .(sleepers := s.sleepers + [t], owner := Free)
  }

  function Finding(s: State, t: nat): State
    requires t < |s.threads|
  {
    if t in s.sleepers then Put(s, t, s.threads[t].(pc := StopErased)).(sleepers := Without(s.sleepers, t))
    else Put(s, t, s.threads[t].(pc := StopCancel)).(owner := Free)
  }

  function Leaving(s: State, t: nat): State
    requires t < |s.threads|
  {
    Put(s, t, s.threads[t].(pc := Work, counted := false,
        notify := if SearchingCount(s.packed) == 1 then FirstLoad else Quiet)).(packed := s.packed - 1)
  }

  function Do(s: State, t: nat, a: Action): State
    requires Enabled(s, t, a)
  {
    var th := s.threads[t];
    match a
    case Publish => Put(s, t, th.(notify := FirstLoad)).(work := s.work + 1)
    case Load1 => Loading1(s, t)
    case Lock => Locking(s, t)
    case Load2 => Loading2(s, t)
    case UpdatePopped => UpdatingPopped(s, t)
    case Unpark => Unparks(s, t)
    case StartSearch => Put(s, t, th.(pc := Look, counted := true)).(packed := s.packed + 1)
    case Search => Searching(s, t)
    case Add => AddingOne(s, t)
    case Push => PushingOne(s, t)
    case Resume => Put(s, t, th.(pc := Look, unparkFlag := false))
    case Find => Finding(s, t)
    case UpdateErased => Put(s, t, th.(pc := StopSub, counted := true)).(packed := s.packed - (PARK - 1), owner := Free)
    case Cancel => Put(s, t, th.(pc := StopSub, unparkFlag := false))
    case LeaveSearch => Leaving(s, t)
  }

  ghost predicate Next(s: State, s': State) {
    exists t, a :: Enabled(s, t, a) && s' == Do(s, t, a)
  }

  // ----- the invariant

  /** The worker joined the sleepers and has not been removed by itself. */
  predicate Registered(pc: Pc) {
    pc == OnceLook || pc == ToPark || pc == StopLock || pc == StopHold
  }

  predicate HoldsMutex(th: Thread) {
    th.pc == Adding || th.pc.Pushing? || th.pc == StopHold || th.pc == StopErased
    || th.notify == SecondLoad || th.notify.Popped? || th.notify.Unparking?
  }

  /** The owner of the mutex is between its change of the list and its change of the counter. */
  predicate InBetween(th: Thread) {
    th.pc.Pushing? || th.pc == StopErased || th.notify.Popped?
  }

  ghost predicate PoppedBy(s: State, t: nat) {
    s.owner.Held? && s.owner.holder < |s.threads| && s.threads[s.owner.holder].notify == Popped(t)
  }

  ghost predicate UnparkedBy(s: State, t: nat) {
    s.owner.Held? && s.owner.holder < |s.threads| && s.threads[s.owner.holder].notify == Unparking(t)
  }

  ghost predicate ThreadOK(s: State, t: nat)
    requires t < |s.threads|
  {
    var th := s.threads[t];
    && (th.notify != Quiet ==> th.pc == Work || th.pc == External)
    && (HoldsMutex(th) <==> s.owner == Held(t))
    && (t in s.sleepers ==> Registered(th.pc) && !th.unparkFlag && !th.counted)
    && (Registered(th.pc) && t !in s.sleepers ==>
          || (PoppedBy(s, t) && !th.unparkFlag && !th.counted)
          || (UnparkedBy(s, t) && !th.unparkFlag && th.counted)
          || (th.unparkFlag && th.counted))
    && ((PoppedBy(s, t) || UnparkedBy(s, t)) ==> Registered(th.pc) && t !in s.sleepers && !th.unparkFlag)
    && (PoppedBy(s, t) ==> !th.counted)
    && (th.pc == Look || th.pc == Looked || th.pc == Adding || th.pc == StopSub ==> th.counted && !th.unparkFlag)
    && (th.pc == StopCancel ==> th.counted && th.unparkFlag)
    && (th.pc.Pushing? || th.pc == StopErased || th.pc == Work || th.pc == External ==> !th.counted && !th.unparkFlag)
  }

  ghost function CountedSet(s: State): set<nat> {
    set t | 0 <= t < |s.threads| && s.threads[t].counted
  }

  ghost function Extra(s: State): int {
    if s.owner.Held? && s.owner.holder < |s.threads| && InBetween(s.threads[s.owner.holder]) then 1 else 0
  }

  ghost predicate NoDup(a: seq<nat>) {
    forall i, j :: 0 <= i < j < |a| ==> a[i] != a[j]
  }

  /** A thread that is still going to look for work or to wake somebody. */
  predicate Responsible(th: Thread) {
    th.counted || th.pc == Pushing(true) || th.pc == OnceLook || th.pc == StopLock || th.pc == StopHold
    || th.pc == StopErased || th.notify != Quiet
  }

  ghost predicate SomeoneResponsible(s: State) {
    exists t :: 0 <= t < |s.threads| && Responsible(s.threads[t])
  }

  ghost predicate Counts(s: State) {
    && |s.threads| < 1000
    && |CountedSet(s)| <= |s.threads|
    && s.packed == PARK * (|s.sleepers| + Extra(s)) + |CountedSet(s)|
  }

  ghost predicate Structure(s: State) {
    && (s.owner.Held? ==> s.owner.holder < |s.threads|)
    && NoDup(s.sleepers)
    && (forall i :: 0 <= i < |s.sleepers| ==> s.sleepers[i] < |s.threads|)
    && (forall t :: 0 <= t < |s.threads| && s.threads[t].notify.Popped? ==> s.threads[t].notify.target < |s.threads|)
    && (forall t :: 0 <= t < |s.threads| && s.threads[t].notify.Unparking? ==> s.threads[t].notify.target < |s.threads|)
    && (forall t :: 0 <= t < |s.threads| ==> ThreadOK(s, t))
  }

  ghost predicate Inv(s: State) {
    && Counts(s)
    && Structure(s)
    && (s.work > 0 && ParkedCount(s.packed) > 0 ==> SomeoneResponsible(s))
  }

  lemma PackedDigits(s: State)
    requires Counts(s)
    ensures SearchingCount(s.packed) == |CountedSet(s)| && ParkedCount(s.packed) == |s.sleepers| + Extra(s)
  {
  }

  lemma {:induction false} RangeSize(n: nat, a: set<nat>)
    requires forall x :: x in a ==> x < n
    ensures |a| <= n
  {
    if n > 0 {
      if n - 1 in a {
        RangeSize(n - 1, a - {n - 1});
      } else {
        RangeSize(n - 1, a);
      }
    } else {
      assert a == {};
    }
  }

  lemma CountedBound(s: State)
    ensures |CountedSet(s)| <= |s.threads|
  {
    RangeSize(|s.threads|, CountedSet(s));
  }

  /** The set of counted threads changes by the one thread that changes. */
  lemma CountedChange(s: State, s': State, t: nat)
    requires |s'.threads| == |s.threads| && t < |s.threads|
    requires forall u :: 0 <= u < |s.threads| && u != t ==> s'.threads[u].counted == s.threads[u].counted
    ensures |CountedSet(s')| - (if s'.threads[t].counted then 1 else 0) == |CountedSet(s)| - (if s.threads[t].counted then 1 else 0)
  {
    var a, b := CountedSet(s), CountedSet(s');
    assert a - {t} == b - {t};
    assert t in a ==> a == (a - {t}) + {t};
    assert t !in a ==> a == a - {t};
    assert t in b ==> b == (b - {t}) + {t};
    assert t !in b ==> b == b - {t};
  }

  lemma {:induction false} WithoutMembers(a: seq<nat>, t: nat)
    requires NoDup(a)
    ensures forall x :: x in Without(a, t) <==> x in a && x != t
    ensures NoDup(Without(a, t))
    ensures |Without(a, t)| == if t in a then |a| - 1 else |a|
  {
    if a != [] {
      assert NoDup(a[1..]) by {
        forall i, j | 0 <= i < j < |a[1..]| ensures a[1..][i] != a[1..][j] {
          assert a[i + 1] != a[j + 1];
        }
      }
      WithoutMembers(a[1..], t);
      forall x | x in a[1..] ensures x != a[0] {
        var i :| 0 <= i < |a[1..]| && a[1..][i] == x;
        assert a[0] != a[i + 1];
      }
      if a[0] != t {
        var w := Without(a[1..], t);
        forall i, j | 0 <= i < j < |[a[0]] + w| ensures ([a[0]] + w)[i] != ([a[0]] + w)[j] {
          assert w[j - 1] in w;
          if i > 0 { assert w[i - 1] != w[j - 1]; }
        }
      }
    }
  }

  // ----- no CHECK fails

  /** The conditions the code checks, each at the step that checks it. */
  ghost predicate ChecksHold(s: State, t: nat)
    requires t < |s.threads|
  {
    var th := s.threads[t];
    && (th.pc == Adding ==> SearchingCount(s.packed) != 0)
    && (th.pc.Pushing? ==> !th.unparkFlag)
    && (th.pc == StopCancel ==> th.unparkFlag)
    && (th.pc == StopSub ==> 0 < SearchingCount(s.packed) < 1000)
    && (th.notify == SecondLoad ==> ParkedCount(s.packed) == |s.sleepers|)
  }

  lemma NoCheckFails(s: State, t: nat)
    requires Inv(s) && t < |s.threads|
    ensures ChecksHold(s, t)
  {
    PackedDigits(s);
    CountedBound(s);
    assert ThreadOK(s, t);
    if s.threads[t].counted {
      assert t in CountedSet(s);
    }
  }

  // ----- every step keeps the invariant

  /** Steps that leave the mutex, the list and every other thread alone. */
  lemma OwnStructure(s: State, t: nat, s': State)
    requires Structure(s) && t < |s.threads| == |s'.threads| && s'.threads == s.threads[t := s'.threads[t]]
    requires s'.owner == s.owner && s'.sleepers == s.sleepers
    requires InBetween(s'.threads[t]) ==> InBetween(s.threads[t])
    requires s'.threads[t].notify.Popped? || s'.threads[t].notify.Unparking? || s.threads[t].notify.Popped? || s.threads[t].notify.Unparking? ==>
      s'.threads[t].notify == s.threads[t].notify
    requires ThreadOK(s', t)
    ensures Structure(s')
  {
    forall u | 0 <= u < |s'.threads| ensures ThreadOK(s', u) {
      assert ThreadOK(s, u);
    }
  }

  lemma PublishInv(s: State, t: nat)
    requires Inv(s) && Enabled(s, t, Publish)
    ensures Inv(Do(s, t, Publish))
  {
    var s' := Do(s, t, Publish);
    assert ThreadOK(s, t);
    CountedChange(s, s', t);
    OwnStructure(s, t, s');
    assert Responsible(s'.threads[t]);
  }

  lemma Load1Inv(s: State, t: nat)
    requires Inv(s) && Enabled(s, t, Load1)
    ensures Inv(Do(s, t, Load1))
  {
    var s' := Do(s, t, Load1);
    assert ThreadOK(s, t);
    CountedChange(s, s', t);
    OwnStructure(s, t, s');
    PackedDigits(s);
    if SearchingCount(s.packed) > 0 {
      CountedResponsible(s, s');
    } else if ParkedCount(s.packed) > 0 {
      assert Responsible(s'.threads[t]);
    }
  }

  /** Somebody counted as searching is still going to look. */
  lemma CountedResponsible(s: State, s': State)
    requires |CountedSet(s)| > 0 && |s'.threads| == |s.threads|
    requires forall u :: 0 <= u < |s.threads| ==> s'.threads[u].counted == s.threads[u].counted
    ensures SomeoneResponsible(s')
  {
    var u :| u in CountedSet(s);
    assert Responsible(s'.threads[u]);
  }

  lemma LockInv(s: State, t: nat)
    requires Inv(s) && Enabled(s, t, Lock)
    ensures Inv(Do(s, t, Lock))
  {
    var s' := Do(s, t, Lock);
    assert ThreadOK(s, t);
    CountedChange(s, s', t);
    forall u | 0 <= u < |s'.threads| ensures ThreadOK(s', u) {
      assert ThreadOK(s, u);
    }
    if SomeoneResponsible(s) {
      var u :| 0 <= u < |s.threads| && Responsible(s.threads[u]);
      assert Responsible(s'.threads[u]);
    }
  }

  lemma Load2Structure(s: State, t: nat)
    requires Inv(s) && Enabled(s, t, Load2)
    ensures Structure(Do(s, t, Load2))
  {
    var s' := Do(s, t, Load2);
    assert ThreadOK(s, t);
    if s'.threads[t].notify.Popped? {
      var target := s'.threads[t].notify.target;
      assert s.sleepers == s'.sleepers + [target];
      assert ThreadOK(s, target);
    }
    forall u | 0 <= u < |s'.threads| ensures ThreadOK(s', u) {
      assert ThreadOK(s, u);
    }
  }

  lemma Load2Inv(s: State, t: nat)
    requires Inv(s) && Enabled(s, t, Load2)
    ensures Inv(Do(s, t, Load2))
  {
    var s' := Do(s, t, Load2);
    Load2Structure(s, t);
    assert ThreadOK(s, t);
    CountedChange(s, s', t);
    PackedDigits(s);
    if SearchingCount(s.packed) > 0 {
      CountedResponsible(s, s');
    } else if s.sleepers != [] {
      assert Responsible(s'.threads[t]);
    }
  }

  lemma UpdatePoppedInv(s: State, t: nat)
    requires Inv(s) && Enabled(s, t, UpdatePopped)
    ensures Inv(Do(s, t, UpdatePopped))
  {
    var s' := Do(s, t, UpdatePopped);
    var target := s.threads[t].notify.target;
    assert ThreadOK(s, t);
    assert PoppedBy(s, target);
    assert ThreadOK(s, target);
    CountedChange(s, s', target);
    CountedBound(s');
    forall u | 0 <= u < |s'.threads| ensures ThreadOK(s', u) {
      assert ThreadOK(s, u);
    }
    assert Responsible(s'.threads[target]);
  }

  lemma UnparkInv(s: State, t: nat)
    requires Inv(s) && Enabled(s, t, Unpark)
    ensures Inv(Do(s, t, Unpark))
  {
    var s' := Do(s, t, Unpark);
    var target := s.threads[t].notify.target;
    assert ThreadOK(s, t);
    assert UnparkedBy(s, target);
    assert ThreadOK(s, target);
    CountedChange(s, s', t);
    forall u | 0 <= u < |s'.threads| ensures ThreadOK(s', u) {
      assert ThreadOK(s, u);
    }
    assert Responsible(s'.threads[target]);
  }

  lemma StartSearchInv(s: State, t: nat)
    requires Inv(s) && Enabled(s, t, StartSearch)
    ensures Inv(Do(s, t, StartSearch))
  {
    var s' := Do(s, t, StartSearch);
    assert ThreadOK(s, t);
    CountedChange(s, s', t);
    CountedBound(s');
    OwnStructure(s, t, s');
    assert Responsible(s'.threads[t]);
  }

  lemma SearchInv(s: State, t: nat)
    requires Inv(s) && Enabled(s, t, Search)
    ensures Inv(Do(s, t, Search))
  {
    var s' := Do(s, t, Search);
    assert ThreadOK(s, t);
    CountedChange(s, s', t);
    OwnStructure(s, t, s');
    assert s.work > 0 ==> Responsible(s'.threads[t]);
  }

  lemma AddInv(s: State, t: nat)
    requires Inv(s) && Enabled(s, t, Add)
    ensures Inv(Do(s, t, Add))
  {
    var s' := Do(s, t, Add);
    assert ThreadOK(s, t);
    CountedChange(s, s', t);
    PackedDigits(s);
    forall u | 0 <= u < |s'.threads| ensures ThreadOK(s', u) {
      assert ThreadOK(s, u);
    }
    if |CountedSet(s)| == 1 {
      assert Responsible(s'.threads[t]);
    } else {
      assert t in CountedSet(s);
      CountedResponsible(s', s');
    }
  }

  lemma PushInv(s: State, t: nat)
    requires Inv(s) && Enabled(s, t, Push)
    ensures Inv(Do(s, t, Push))
  {
    var s' := Do(s, t, Push);
    assert ThreadOK(s, t);
    CountedChange(s, s', t);
    forall u | 0 <= u < |s'.threads| ensures ThreadOK(s', u) {
      assert ThreadOK(s, u);
    }
    if SomeoneResponsible(s) {
      var u :| 0 <= u < |s.threads| && Responsible(s.threads[u]);
      assert Responsible(s'.threads[u]);
    }
  }

  lemma ResumeInv(s: State, t: nat)
    requires Inv(s) && Enabled(s, t, Resume)
    ensures Inv(Do(s, t, Resume))
  {
    var s' := Do(s, t, Resume);
    assert ThreadOK(s, t);
    CountedChange(s, s', t);
    OwnStructure(s, t, s');
    assert Responsible(s'.threads[t]);
  }

  lemma FindStructure(s: State, t: nat)
    requires Inv(s) && Enabled(s, t, Find)
    ensures Structure(Do(s, t, Find))
  {
    var s' := Do(s, t, Find);
    assert ThreadOK(s, t);
    WithoutMembers(s.sleepers, t);
    forall u | 0 <= u < |s'.threads| ensures ThreadOK(s', u) {
      assert ThreadOK(s, u);
    }
    forall i | 0 <= i < |s'.sleepers| ensures s'.sleepers[i] < |s'.threads| {
      assert s'.sleepers[i] in s.sleepers;
    }
  }

  lemma FindInv(s: State, t: nat)
    requires Inv(s) && Enabled(s, t, Find)
    ensures Inv(Do(s, t, Find))
  {
    var s' := Do(s, t, Find);
    FindStructure(s, t);
    assert ThreadOK(s, t) && ThreadOK(s', t);
    CountedChange(s, s', t);
    WithoutMembers(s.sleepers, t);
    assert Responsible(s'.threads[t]);
  }

  lemma UpdateErasedInv(s: State, t: nat)
    requires Inv(s) && Enabled(s, t, UpdateErased)
    ensures Inv(Do(s, t, UpdateErased))
  {
    var s' := Do(s, t, UpdateErased);
    assert ThreadOK(s, t);
    CountedChange(s, s', t);
    CountedBound(s');
    forall u | 0 <= u < |s'.threads| ensures ThreadOK(s', u) {
      assert ThreadOK(s, u);
    }
    assert Responsible(s'.threads[t]);
  }

  lemma CancelInv(s: State, t: nat)
    requires Inv(s) && Enabled(s, t, Cancel)
    ensures Inv(Do(s, t, Cancel))
  {
    var s' := Do(s, t, Cancel);
    assert ThreadOK(s, t);
    CountedChange(s, s', t);
    OwnStructure(s, t, s');
    assert Responsible(s'.threads[t]);
  }

  lemma LeaveSearchInv(s: State, t: nat)
    requires Inv(s) && Enabled(s, t, LeaveSearch)
    ensures Inv(Do(s, t, LeaveSearch))
  {
    var s' := Do(s, t, LeaveSearch);
    assert ThreadOK(s, t);
    assert t in CountedSet(s);
    CountedChange(s, s', t);
    PackedDigits(s);
    OwnStructure(s, t, s');
    if |CountedSet(s)| == 1 {
      assert Responsible(s'.threads[t]);
    } else {
      CountedResponsible(s', s');
    }
  }

  lemma StepInv(s: State, s': State)
    requires Inv(s) && Next(s, s')
    ensures Inv(s')
  {
    var t, a :| Enabled(s, t, a) && s' == Do(s, t, a);
    match a
    case Publish => PublishInv(s, t);
    case Load1 => Load1Inv(s, t);
    case Lock => LockInv(s, t);
    case Load2 => Load2Inv(s, t);
    case UpdatePopped => UpdatePoppedInv(s, t);
    case Unpark => UnparkInv(s, t);
    case StartSearch => StartSearchInv(s, t);
    case Search => SearchInv(s, t);
    case Add => AddInv(s, t);
    case Push => PushInv(s, t);
    case Resume => ResumeInv(s, t);
    case Find => FindInv(s, t);
    case UpdateErased => UpdateErasedInv(s, t);
    case Cancel => CancelInv(s, t);
    case LeaveSearch => LeaveSearchInv(s, t);
  }

  // ----- whole runs

  ghost predicate StepAt(run: seq<State>, i: int)
    requires 0 <= i < |run| - 1
  {
    Next(run[i], run[i + 1])
  }

  ghost predicate IsRun(run: seq<State>) {
    run != [] && Init(run[0]) && forall i :: 0 <= i < |run| - 1 ==> StepAt(run, i)
  }

  lemma InitInv(s: State)
    requires Init(s)
    ensures Inv(s)
  {
    assert CountedSet(s) == {};
  }

  lemma {:induction false} RunInv(run: seq<State>, i: nat)
    requires IsRun(run) && i < |run|
    ensures Inv(run[i])
  {
    if i == 0 {
      InitInv(run[0]);
    } else {
      RunInv(run, i - 1);
      assert StepAt(run, i - 1);
      StepInv(run[i - 1], run[i]);
    }
  }

  // ----- what the counters and the theorem mean in the places where threads are

  /** Searching, announced in the counter, or leaving the searchers; or taken off the sleepers by a notify that has counted it. */
  ghost predicate Searches(s: State, t: nat)
    requires t < |s.threads|
  {
    var pc := s.threads[t].pc;
    || pc == Look || pc == Looked || pc == Adding || pc == StopSub || pc == StopCancel
    || (Registered(pc) && t !in s.sleepers && !PoppedBy(s, t))
  }

  ghost function Searchers(s: State): set<nat> {
    set t | 0 <= t < |s.threads| && Searches(s, t)
  }

  lemma SearchersAreCounted(s: State)
    requires Structure(s)
    ensures Searchers(s) == CountedSet(s)
  {
    forall t | 0 <= t < |s.threads| ensures Searches(s, t) == s.threads[t].counted {
      assert ThreadOK(s, t);
    }
  }

  lemma NobodyPopsWhenFree(s: State, t: nat)
    requires s.owner == Free
    ensures !PoppedBy(s, t)
  {
  }

  /**
   * In every state of every run searching_count counts exactly the workers that search or were
   * taken off the sleepers and counted; with the mutex free these are all that were taken off,
   * and parked_count is the number of sleepers.
   */
  lemma CountsMean(run: seq<State>, i: nat)
    requires IsRun(run) && i < |run|
    ensures SearchingCount(run[i].packed) == |Searchers(run[i])|
    ensures run[i].owner == Free ==> ParkedCount(run[i].packed) == |run[i].sleepers|
    ensures run[i].owner == Free ==>
      forall t :: t in Searchers(run[i]) <==>
        0 <= t < |run[i].threads|
        && (var pc := run[i].threads[t].pc;
            || pc == Look || pc == Looked || pc == Adding || pc == StopSub || pc == StopCancel
            || (Registered(pc) && t !in run[i].sleepers))
  {
    RunInv(run, i);
    PackedDigits(run[i]);
    SearchersAreCounted(run[i]);
    forall t: nat ensures run[i].owner == Free ==> !PoppedBy(run[i], t) {
      if run[i].owner == Free { NobodyPopsWhenFree(run[i], t); }
    }
  }

  /** The thread is still going to look for work, or to wake a worker that will. */
  ghost predicate WillAct(s: State, t: nat)
    requires t < |s.threads|
  {
    var th := s.threads[t];
    || Searches(s, t) || th.notify != Quiet
    || th.pc == Pushing(true) || th.pc == OnceLook || th.pc == StopLock || th.pc == StopHold || th.pc == StopErased
  }

  lemma ResponsibleWillAct(s: State, t: nat)
    requires Structure(s) && t < |s.threads| && Responsible(s.threads[t])
    ensures WillAct(s, t)
  {
    assert ThreadOK(s, t);
  }

  /** A worker that sleeps. */
  predicate Asleep(s: State, t: nat)
    requires t < |s.threads|
  {
    s.threads[t].pc == ToPark && t in s.sleepers
  }

  /** All workers sleep, and the other threads are outside notify(). */
  ghost predicate AllAsleep(s: State) {
    && s.sleepers != []
    && forall t :: 0 <= t < |s.threads| ==>
         Asleep(s, t) || (s.threads[t].pc == External && s.threads[t].notify == Quiet)
  }

  lemma SleepersDoNotAct(s: State, t: nat)
    requires Structure(s) && t < |s.threads| && AllAsleep(s)
    ensures !WillAct(s, t)
  {
    assert ThreadOK(s, t);
  }

  /**
   * No lost wake-up.  While an item is published and a worker sleeps, some thread is still
   * going to look for it or to wake a worker; so when every worker sleeps and no call of
   * notify() is in progress, no work is left.
   */
  lemma NoLostWakeUp(run: seq<State>, i: nat)
    requires IsRun(run) && i < |run|
    ensures run[i].work > 0 && run[i].sleepers != [] ==> exists t :: 0 <= t < |run[i].threads| && WillAct(run[i], t)
    ensures AllAsleep(run[i]) ==> run[i].work == 0
  {
    RunInv(run, i);
    var s := run[i];
    PackedDigits(s);
    if s.work > 0 && s.sleepers != [] {
      var t :| 0 <= t < |s.threads| && Responsible(s.threads[t]);
      ResponsibleWillAct(s, t);
      if AllAsleep(s) { SleepersDoNotAct(s, t); }
    }
  }

  /** In every state of every run the checks that the next steps make hold. */
  lemma ChecksNeverFail(run: seq<State>, i: nat, t: nat)
    requires IsRun(run) && i < |run| && t < |run[i].threads|
    ensures ChecksHold(run[i], t)
  {
    RunInv(run, i);
    NoCheckFails(run[i], t);
  }
}
