/**
 * The histories of the queues and buffers in terms of the calls that were made: what went in is
 * what the calls put in, in their order, and what came out is as much of it as was taken.
 */
module SpscCalls {
  import opened SpscQueue

  ghost predicate ActAt(run: seq<State>, acts: seq<Action>, i: nat)
    requires i < |acts| && i + 1 < |run|
  {
    Enabled(run[i], acts[i]) && run[i + 1] == Do(run[i], acts[i])
  }

  /** These calls and steps lead through these states. */
  ghost predicate Performs(run: seq<State>, acts: seq<Action>) {
    |run| == |acts| + 1 && Init(run[0]) && forall i :: 0 <= i < |acts| ==> ActAt(run, acts, i)
  }

  lemma PerformsRun(run: seq<State>, acts: seq<Action>)
    requires Performs(run, acts)
    ensures IsRun(run)
  {
    forall i | 0 <= i < |run| - 1 ensures StepAt(run, i) { assert ActAt(run, acts, i); }
  }

  /** The items that were put, in this order. */
  function PutItems(acts: seq<Action>): seq<Item> {
    if acts == [] then []
    else
      var last := acts[|acts| - 1];
      PutItems(acts[..|acts| - 1]) + if last.Put? then [last.item] else []
  }

  function Takes(acts: seq<Action>): nat {
    if acts == [] then 0 else Takes(acts[..|acts| - 1]) + if acts[|acts| - 1].Take? then 1 else 0
  }

  lemma PutStep(s: State, item: Item)
    requires s.blocks != [] && Enabled(s, Put(item))
    ensures var s' := Do(s, Put(item)); Flat(s'.blocks, |s'.blocks|) == Flat(s.blocks, |s.blocks|) + [item]
  {
    var s' := Do(s, Put(item));
    FlatSame(s.blocks, s'.blocks, |s.blocks| - 1);
  }

  lemma OtherStep(s: State, a: Action)
    requires Inv(s) && Enabled(s, a) && !a.Put?
    ensures var s' := Do(s, a); Flat(s'.blocks, |s'.blocks|) == Flat(s.blocks, |s.blocks|)
  {
    var s' := Do(s, a);
    FlatSame(s.blocks, s'.blocks, |s.blocks|);
    if a.NewTail? { assert Flat(s'.blocks, |s'.blocks|) == Flat(s'.blocks, |s.blocks|) + []; }
  }

  lemma {:induction false} CallsAre(run: seq<State>, acts: seq<Action>, k: nat)
    requires Performs(run, acts) && k <= |acts|
    ensures Flat(run[k].blocks, |run[k].blocks|) == PutItems(acts[..k]) && |run[k].log| == Takes(acts[..k])
  {
    if k > 0 {
      CallsAre(run, acts, k - 1);
      PerformsRun(run, acts);
      RunInv(run, k - 1);
      assert ActAt(run, acts, k - 1) && acts[..k][..k - 1] == acts[..k - 1];
      if acts[k - 1].Put? { PutStep(run[k - 1], acts[k - 1].item); } else { OtherStep(run[k - 1], acts[k - 1]); }
    }
  }

  /** First in, first out: the items taken are the first ones put, as many as there were takes. */
  lemma FirstInFirstOut(run: seq<State>, acts: seq<Action>, k: nat)
    requires Performs(run, acts) && k <= |acts|
    ensures Takes(acts[..k]) <= |PutItems(acts[..k])| && run[k].log == PutItems(acts[..k])[..Takes(acts[..k])]
  {
    PerformsRun(run, acts);
    CallsAre(run, acts, k);
    TakenInOrder(run, k);
  }
}

module MpmcCalls {
  import opened MpmcQueue

  ghost predicate ActAt(run: seq<State>, acts: seq<Action>, i: nat)
    requires i < |acts| && i + 1 < |run|
  {
    Enabled(run[i], acts[i]) && run[i + 1] == Do(run[i], acts[i])
  }

  ghost predicate Performs(run: seq<State>, acts: seq<Action>) {
    |run| == |acts| + 1 && Init(run[0]) && forall i :: 0 <= i < |acts| ==> ActAt(run, acts, i)
  }

  lemma PerformsRun(run: seq<State>, acts: seq<Action>)
    requires Performs(run, acts)
    ensures IsRun(run)
  {
    forall i | 0 <= i < |run| - 1 ensures StepAt(run, i) { assert ActAt(run, acts, i); }
  }

  /** The items of the calls of push. */
  function Pushed(acts: seq<Action>): set<Item> {
    if acts == [] then {}
    else
      var last := acts[|acts| - 1];
      Pushed(acts[..|acts| - 1]) + if last.StartPush? then {last.item} else {}
  }

  lemma StepKeys(s: State, t: nat)
    requires Inv(s) && Enabled(s, Step(t))
    ensures Stepping(s, t).place.Keys == s.place.Keys
  {
    assert ThreadAt(s, t);
    match s.threads[t]
    case PushClaimed(item, _, _) => assert Pushes(s.threads[t], item);
    case PushNew(item, _) => assert Pushes(s.threads[t], item);
    case PopClaimed(n, pos, _) =>
      if s.nodes[n].slots[pos].Value? { assert NodeAt(s, n) && SlotAt(s, n, pos); }
    case _ =>
  }

  lemma {:induction false} PlacedIsPushed(run: seq<State>, acts: seq<Action>, k: nat)
    requires Performs(run, acts) && k <= |acts|
    ensures run[k].place.Keys == Pushed(acts[..k])
  {
    if k > 0 {
      PlacedIsPushed(run, acts, k - 1);
      PerformsRun(run, acts);
      RunInv(run, k - 1);
      assert ActAt(run, acts, k - 1) && acts[..k][..k - 1] == acts[..k - 1];
      if acts[k - 1].Step? { StepKeys(run[k - 1], acts[k - 1].t); }
    }
  }

  /** What try_pop returned was pushed, each item at most once. */
  lemma ReturnedWasPushed(run: seq<State>, acts: seq<Action>, k: nat, x: Item)
    requires Performs(run, acts) && k <= |acts| && x in run[k].popped
    ensures x in Pushed(acts[..k]) && Distinct(run[k].popped)
  {
    PerformsRun(run, acts);
    PlacedIsPushed(run, acts, k);
    RunInv(run, k);
  }

  /** And what was pushed is in a hand, in a slot or returned. */
  lemma PushedIsSomewhere(run: seq<State>, acts: seq<Action>, k: nat, x: Item)
    requires Performs(run, acts) && k <= |acts| && x in Pushed(acts[..k])
    ensures (exists t :: InHand(run[k], x, t)) || (exists n, i :: InSlotOf(run[k], x, n, i)) || x in run[k].popped
  {
    PerformsRun(run, acts);
    PlacedIsPushed(run, acts, k);
    ExactlyOnce(run, k, x);
    var s := run[k];
    match s.place[x]
    case Hand(t) => assert InHand(s, x, t);
    case InSlot(n, i) => assert InSlotOf(s, x, n, i);
    case Popped =>
  }
}

module StealingCalls {
  import opened StealingQueue

  /** One call or step of thread t. */
  datatype Act = Act(t: nat, a: Action)

  ghost predicate ActAt(run: seq<State>, acts: seq<Act>, i: nat)
    requires i < |acts| && i + 1 < |run|
  {
    Shape(run[i]) && Enabled(run[i], acts[i].t, acts[i].a) && run[i + 1] == Do(run[i], acts[i].t, acts[i].a)
  }

  ghost predicate Performs(run: seq<State>, acts: seq<Act>) {
    |run| == |acts| + 1 && Init(run[0]) && forall i :: 0 <= i < |acts| ==> ActAt(run, acts, i)
  }

  lemma PerformsRun(run: seq<State>, acts: seq<Act>)
    requires Performs(run, acts)
    ensures IsRun(run)
  {
    forall i | 0 <= i < |run| - 1 ensures StepAt(run, i) { assert ActAt(run, acts, i); }
  }

  /** The values of the calls of local_push. */
  function PushedValues(acts: seq<Act>): multiset<Value> {
    if acts == [] then multiset{}
    else
      var last := acts[|acts| - 1].a;
      PushedValues(acts[..|acts| - 1]) + if last.StartPush? then multiset{last.v} else multiset{}
  }

  lemma {:induction false} InsertedIsPushed(run: seq<State>, acts: seq<Act>, k: nat)
    requires Performs(run, acts) && k <= |acts|
    ensures run[k].inserted == PushedValues(acts[..k])
  {
    if k > 0 {
      InsertedIsPushed(run, acts, k - 1);
      assert ActAt(run, acts, k - 1) && acts[..k][..k - 1] == acts[..k - 1];
    }
  }

  /** Every value was pushed as often as it is held, was returned or overflowed. */
  lemma PushedIsSomewhere(run: seq<State>, acts: seq<Act>, k: nat, v: Value)
    requires Performs(run, acts) && k <= |acts|
    ensures PushedValues(acts[..k])[v] == TotalHeld(run[k].queues, run[k].cap, v) + run[k].returned[v] + run[k].overflowed[v]
  {
    PerformsRun(run, acts);
    InsertedIsPushed(run, acts, k);
    EveryValueOnce(run, k);
  }
}

module ChainCalls {
  import opened ChainBuffer

  ghost predicate ActAt(run: seq<State>, acts: seq<Action>, i: nat)
    requires i < |acts| && i + 1 < |run|
  {
    Enabled(run[i], acts[i]) && run[i + 1] == Do(run[i], acts[i])
  }

  ghost predicate Performs(run: seq<State>, acts: seq<Action>) {
    |run| == |acts| + 1 && Init(run[0]) && forall i :: 0 <= i < |acts| ==> ActAt(run, acts, i)
  }

  lemma PerformsRun(run: seq<State>, acts: seq<Action>)
    requires Performs(run, acts)
    ensures IsRun(run)
  {
    forall i | 0 <= i < |run| - 1 ensures StepAt(run, i) { assert ActAt(run, acts, i); }
  }

  /** The bytes of the appends so far, in their order. */
  function Written(acts: seq<Action>): Text {
    if acts == [] then []
    else
      var last := acts[|acts| - 1];
      Written(acts[..|acts| - 1]) + if last.Publish? || last.LinkSlice? then last.bytes else []
  }

  /** How many bytes iterator i confirmed. */
  function Confirmed(acts: seq<Action>, i: nat): nat {
    if acts == [] then 0
    else
      var last := acts[|acts| - 1];
      Confirmed(acts[..|acts| - 1], i) + if last.Confirm? && last.i == i then last.k else 0
  }

  /** All bytes in the chain. */
  function Whole(s: State): Text { Flat(s.nodes, |s.nodes|) }

  lemma AppendStep(s: State, a: Action)
    requires Inv(s) && Enabled(s, a)
    ensures Whole(Do(s, a)) == Whole(s) + if a.Publish? || a.LinkSlice? then a.bytes else []
  {
    var s' := Do(s, a);
    var n := if a.Publish? then s.tail else |s.nodes|;
    FlatSame(s.nodes, s'.nodes, n);
    if a.LinkEmpty? || a.LinkSlice? { assert Flat(s'.nodes, |s'.nodes|) == Flat(s'.nodes, |s.nodes|) + s'.nodes[|s.nodes|].published; }
  }

  lemma {:induction false} WholeIsWritten(run: seq<State>, acts: seq<Action>, k: nat)
    requires Performs(run, acts) && k <= |acts|
    ensures Whole(run[k]) == Written(acts[..k])
  {
    if k == 0 {
      assert Flat(run[0].nodes, 1) == Flat(run[0].nodes, 0) + run[0].nodes[0].published;
    } else {
      WholeIsWritten(run, acts, k - 1);
      PerformsRun(run, acts);
      RunInv(run, k - 1);
      assert ActAt(run, acts, k - 1) && acts[..k][..k - 1] == acts[..k - 1];
      AppendStep(run[k - 1], acts[k - 1]);
    }
  }

  /** What an iterator has read are the first bytes of those that the calls appended. */
  lemma ReadIsPrefix(run: seq<State>, acts: seq<Action>, k: nat, i: nat)
    requires Performs(run, acts) && k <= |acts| && i < |run[k].iters|
    ensures run[k].iters[i].log <= Written(acts[..k])
  {
    PerformsRun(run, acts);
    WholeIsWritten(run, acts, k);
    ConsumedIsPrefix(run, k, i);
    RunInv(run, k);
    FlatPrefix(run[k].nodes, run[k].tail + 1, |run[k].nodes|);
  }

  /** The first iterator has read as many bytes as were confirmed for it. */
  lemma {:induction false} FirstConfirmed(run: seq<State>, acts: seq<Action>, k: nat)
    requires Performs(run, acts) && k <= |acts|
    ensures |run[k].iters| > 0 && run[k].iters[0].offset == Confirmed(acts[..k], 0)
  {
    if k > 0 {
      FirstConfirmed(run, acts, k - 1);
      assert ActAt(run, acts, k - 1) && acts[..k][..k - 1] == acts[..k - 1];
    }
  }

  /** So the first iterator has read exactly that many of the first bytes appended. */
  lemma FirstReads(run: seq<State>, acts: seq<Action>, k: nat)
    requires Performs(run, acts) && k <= |acts|
    ensures |run[k].iters| > 0 && Confirmed(acts[..k], 0) <= |Written(acts[..k])|
    ensures run[k].iters[0].log == Written(acts[..k])[..Confirmed(acts[..k], 0)]
  {
    FirstConfirmed(run, acts, k);
    PerformsRun(run, acts);
    ReadIsPrefix(run, acts, k, 0);
    ConsumedIsPrefix(run, k, 0);
  }
}
