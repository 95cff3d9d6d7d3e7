/**
 * Whom notify() of pxcutils/pxc/utils/MpmcWaiter.h wakes, and that nobody is stuck.
 *
 * A notify takes a sleeper off exactly if no worker searches and some worker sleeps, and then the
 * one that parked last.  Every thread can go on, waits for a mutex whose holder can go on, or is
 * parked; and a parked worker that is not among the sleepers is about to be unparked.
 */
module SleepyProgress {
  import opened SleepyWaiter

  // ----- when a notify wakes a worker

  /** The load without the mutex: notify() gives up exactly if some worker searches or none is parked. */
  lemma FirstLoadChecks(run: seq<State>, i: nat, t: nat)
    requires IsRun(run) && i < |run| && t < |run[i].threads| && run[i].threads[t].notify == FirstLoad
    ensures var s := run[i];
      Do(s, t, Load1).threads[t].notify == if Searchers(s) == {} && ParkedCount(s.packed) > 0 then WantMutex else Quiet
  {
    CountsMean(run, i);
    NoSearchers(run[i]);
    RunInv(run, i);
    PackedDigits(run[i]);
  }

  lemma NoSearchers(s: State)
    ensures |Searchers(s)| == 0 <==> Searchers(s) == {}
  {
  }

  /** With the mutex: it takes a sleeper off exactly if no worker searches and one sleeps, and it is the last of the list. */
  lemma NotifyTakes(run: seq<State>, i: nat, t: nat)
    requires IsRun(run) && i < |run| && t < |run[i].threads| && run[i].threads[t].notify == SecondLoad
    ensures var s := run[i];
      var s', n := Do(s, t, Load2), |s.sleepers| - 1;
      if Searchers(s) == {} && s.sleepers != [] then
        s'.threads[t].notify == Popped(s.sleepers[n]) && s'.sleepers == s.sleepers[..n] && s'.owner == s.owner
      else s'.threads[t].notify == Quiet && s'.sleepers == s.sleepers && s'.owner == Free
  {
    CountsMean(run, i);
    NoSearchers(run[i]);
  }

  // ----- the sleepers are in the order in which they parked

  /** Thread t joins the sleepers in the step to the i-th state. */
  predicate ParksAt(run: seq<State>, i: nat, t: nat)
    requires 0 < i < |run|
  {
    t !in run[i - 1].sleepers && t in run[i].sleepers
  }

  /** When t joined the sleepers for the last time, up to the i-th state. */
  function ParkedAt(run: seq<State>, i: nat, t: nat): (at: nat)
    requires i < |run|
    ensures at <= i
  {
    if i == 0 then 0 else if ParksAt(run, i, t) then i else ParkedAt(run, i - 1, t)
  }

  /** From the first to the last they parked one after the other. */
  ghost predicate InOrder(run: seq<State>, i: nat, sleepers: seq<nat>)
    requires i < |run|
  {
    forall a, b :: 0 <= a < b < |sleepers| ==> ParkedAt(run, i, sleepers[a]) < ParkedAt(run, i, sleepers[b])
  }

  ghost predicate Shorter(a: seq<nat>, b: seq<nat>, t: nat) {
    (exists k: nat :: k < |b| && b[k] == t && a == b[..k] + b[k + 1..]) || a == b
  }

  lemma {:induction false} WithoutCuts(b: seq<nat>, t: nat) returns (k: nat)
    requires t in b
    ensures k < |b| && b[k] == t && Without(b, t) == b[..k] + b[k + 1..]
  {
    if b[0] == t {
      k := 0;
    } else {
      k := WithoutCuts(b[1..], t);
      k := k + 1;
      assert b[..k] == [b[0]] + b[1..][..k - 1];
    }
  }

  /** A step puts one thread at the end of the sleepers, or takes at most one off. */
  ghost predicate ListStep(a: seq<nat>, b: seq<nat>) {
    (exists t: nat :: a == b + [t]) || (exists t: nat :: Shorter(a, b, t))
  }

  lemma StepList(s: State, t: nat, a: Action)
    requires Enabled(s, t, a)
    ensures ListStep(Do(s, t, a).sleepers, s.sleepers)
  {
    var b, b' := s.sleepers, Do(s, t, a).sleepers;
    if a.Push? {
      assert b' == b + [t];
    } else if a.Find? && t in b {
      var k := WithoutCuts(b, t);
      assert Shorter(b', b, t);
    } else if a.Load2? && b' != b {
      var k := |b| - 1;
      assert b[..k] + b[k + 1..] == b[..k];
      assert Shorter(b', b, b[k]);
    } else {
      assert Shorter(b', b, t);
    }
  }

  lemma {:induction false} OrderKept(run: seq<State>, i: nat)
    requires IsRun(run) && i < |run|
    ensures InOrder(run, i, run[i].sleepers)
  {
    if i > 0 {
      OrderKept(run, i - 1);
      assert StepAt(run, i - 1);
      var t, a :| Enabled(run[i - 1], t, a) && run[i] == Do(run[i - 1], t, a);
      StepList(run[i - 1], t, a);
      RunInv(run, i);
      OrderStep(run, i);
    }
  }

  lemma StaysParked(run: seq<State>, i: nat, x: nat)
    requires 0 < i < |run| && x in run[i - 1].sleepers
    ensures ParkedAt(run, i, x) == ParkedAt(run, i - 1, x) < i
  {
  }

  lemma OrderAppended(run: seq<State>, i: nat, b: seq<nat>, t: nat)
    requires 0 < i < |run| && InOrder(run, i - 1, b) && run[i - 1].sleepers == b && run[i].sleepers == b + [t] && t !in b
    ensures InOrder(run, i, b + [t])
  {
    var b' := b + [t];
    assert b'[|b|] == t && ParksAt(run, i, t);
    forall j, k | 0 <= j < k < |b'| ensures ParkedAt(run, i, b'[j]) < ParkedAt(run, i, b'[k]) {
      StaysParked(run, i, b[j]);
      if k < |b| { StaysParked(run, i, b[k]); }
    }
  }

  lemma OrderCut(run: seq<State>, i: nat, b: seq<nat>, k: nat)
    requires 0 < i < |run| && InOrder(run, i - 1, b) && run[i - 1].sleepers == b && k < |b|
    ensures InOrder(run, i, b[..k] + b[k + 1..]) && InOrder(run, i, b)
  {
    forall j, l | 0 <= j < l < |b| ensures ParkedAt(run, i, b[j]) < ParkedAt(run, i, b[l]) {
      StaysParked(run, i, b[j]);
      StaysParked(run, i, b[l]);
    }
    var b' := b[..k] + b[k + 1..];
    forall j, l | 0 <= j < l < |b'| ensures ParkedAt(run, i, b'[j]) < ParkedAt(run, i, b'[l]) {
      assert b'[j] == b[if j < k then j else j + 1] && b'[l] == b[if l < k then l else l + 1];
    }
  }

  lemma NewIsLast(b: seq<nat>, t: nat)
    requires NoDup(b + [t])
    ensures t !in b
  {
    var all := b + [t];
    forall j | 0 <= j < |b| ensures b[j] != t {
      assert all[j] == b[j] && all[|b|] == t;
    }
  }

  lemma OrderStep(run: seq<State>, i: nat)
    requires 0 < i < |run| && InOrder(run, i - 1, run[i - 1].sleepers)
    requires ListStep(run[i].sleepers, run[i - 1].sleepers) && NoDup(run[i].sleepers)
    ensures InOrder(run, i, run[i].sleepers)
  {
    var b, b' := run[i - 1].sleepers, run[i].sleepers;
    if t: nat :| b' == b + [t] {
      NewIsLast(b, t);
      OrderAppended(run, i, b, t);
    } else {
      var t: nat :| Shorter(b', b, t);
      if b' != b {
        var k: nat :| k < |b| && b[k] == t && b' == b[..k] + b[k + 1..];
        OrderCut(run, i, b, k);
      } else if b != [] {
        OrderCut(run, i, b, 0);
      }
    }
  }

  /** So whom a notify takes off has parked after all other sleepers. */
  lemma NotifyTakesLatest(run: seq<State>, i: nat, u: nat)
    requires IsRun(run) && i < |run| && run[i].sleepers != [] && u in run[i].sleepers
    requires u != run[i].sleepers[|run[i].sleepers| - 1]
    ensures ParkedAt(run, i, u) < ParkedAt(run, i, run[i].sleepers[|run[i].sleepers| - 1])
  {
    OrderKept(run, i);
    var k :| 0 <= k < |run[i].sleepers| && run[i].sleepers[k] == u;
  }

  // ----- the work

  /** One call or step of thread t. */
  datatype Act = Act(t: nat, a: Action)

  ghost predicate ActAt(run: seq<State>, acts: seq<Act>, i: nat)
    requires i < |acts| && i + 1 < |run|
  {
    Enabled(run[i], acts[i].t, acts[i].a) && run[i + 1] == Do(run[i], acts[i].t, acts[i].a)
  }

  ghost predicate Performs(run: seq<State>, acts: seq<Act>) {
    |run| == |acts| + 1 && Init(run[0]) && forall i :: 0 <= i < |acts| ==> ActAt(run, acts, i)
  }

  function Published(acts: seq<Act>): nat {
    if acts == [] then 0 else Published(acts[..|acts| - 1]) + if acts[|acts| - 1].a.Publish? then 1 else 0
  }

  /** A search pass that has found an item: its thread goes on to stop searching. */
  predicate Finds(th: Thread, th': Thread) {
    (th.pc == Look && th'.pc == StopSub) || (th.pc == OnceLook && th'.pc == StopLock)
  }

  ghost function Found(run: seq<State>, acts: seq<Act>, k: nat): nat
    requires Performs(run, acts) && k <= |acts|
    decreases k
  {
    if k == 0 then 0
    else
      assert ActAt(run, acts, k - 1);
      var t := acts[k - 1].t;
      Found(run, acts, k - 1) + if t < |run[k].threads| && Finds(run[k - 1].threads[t], run[k].threads[t]) then 1 else 0
  }

  lemma WorkStep(s: State, t: nat, a: Action)
    requires Enabled(s, t, a)
    ensures var s' := Do(s, t, a);
      && t < |s'.threads|
      && s'.work == s.work + (if a.Publish? then 1 else 0) - (if Finds(s.threads[t], s'.threads[t]) then 1 else 0)
      && (a.Publish? ==> s'.threads[t].notify == FirstLoad)
      && (a.Search? && s.work > 0 ==> Finds(s.threads[t], s'.threads[t]))
  {
  }

  /** The work that is left is what was published and not found by a search pass; a pass finds something whenever there is work. */
  lemma {:induction false} WorkIsLeft(run: seq<State>, acts: seq<Act>, k: nat)
    requires Performs(run, acts) && k <= |acts|
    ensures run[k].work + Found(run, acts, k) == Published(acts[..k])
    decreases k
  {
    if k > 0 {
      WorkIsLeft(run, acts, k - 1);
      assert ActAt(run, acts, k - 1) && acts[..k][..k - 1] == acts[..k - 1];
      WorkStep(run[k - 1], acts[k - 1].t, acts[k - 1].a);
    }
  }

  // ----- nobody is stuck

  ghost predicate CanStep(s: State, t: nat) { exists a :: Enabled(s, t, a) }

  lemma HolderCanStep(s: State)
    requires Structure(s) && s.owner.Held?
    ensures CanStep(s, s.owner.holder)
  {
    var u := s.owner.holder;
    assert ThreadOK(s, u);
    var th := s.threads[u];
    var a := if th.notify == SecondLoad then Load2 else if th.notify.Popped? then UpdatePopped else if th.notify.Unparking? then Unpark
      else if th.pc == Adding then Add else if th.pc.Pushing? then Push else if th.pc == StopHold then Find else UpdateErased;
    assert Enabled(s, u, a);
  }

  /** In park() with nothing to do before it is unparked. */
  predicate Parked(th: Thread) { th.pc == ToPark && !th.unparkFlag && th.notify == Quiet }

  /** The holder of the mutex took t off and is going to unpark it. */
  ghost predicate BeingUnparked(s: State, t: nat) { PoppedBy(s, t) || UnparkedBy(s, t) }

  /**
   * In every state of every run each thread can go on, or waits for the mutex, whose holder can go
   * on, or is parked: among the sleepers, or taken off by the holder of the mutex, who can go on.
   */
  lemma NobodyStuck(run: seq<State>, i: nat, t: nat)
    requires IsRun(run) && i < |run| && t < |run[i].threads|
    ensures var s := run[i];
      || CanStep(s, t)
      || (Wants(s.threads[t]) && s.owner.Held? && CanStep(s, s.owner.holder))
      || (Parked(s.threads[t]) && (t in s.sleepers || (BeingUnparked(s, t) && CanStep(s, s.owner.holder))))
  {
    RunInv(run, i);
    var s := run[i];
    assert ThreadOK(s, t);
    if s.owner.Held? { HolderCanStep(s); }
    if !Wants(s.threads[t]) && !Parked(s.threads[t]) {
      OwnStep(s, t);
    } else if Wants(s.threads[t]) && s.owner == Free {
      assert Enabled(s, t, Lock);
    }
  }

  lemma OwnStep(s: State, t: nat)
    requires Structure(s) && t < |s.threads| && !Wants(s.threads[t]) && !Parked(s.threads[t])
    ensures CanStep(s, t)
  {
    assert ThreadOK(s, t);
    var th := s.threads[t];
    var a := match th.notify
      case FirstLoad => Load1
      case SecondLoad => Load2
      case Popped(_) => UpdatePopped
      case Unparking(_) => Unpark
      case _ => OwnAction(th.pc);
    assert Enabled(s, t, a);
  }

  function OwnAction(pc: Pc): Action {
    match pc
    case External => Publish
    case Work => StartSearch
    case Look => Search
    case OnceLook => Search
    case Adding => Add
    case Pushing(_) => Push
    case ToPark => Resume
    case StopHold => Find
    case StopErased => UpdateErased
    case StopCancel => Cancel
    case _ => LeaveSearch
  }
}
