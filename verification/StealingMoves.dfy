/**
 * What the operations of pxcutils/pxc/utils/StealingQueue.h do with the contents of the queues,
 * oldest value first: every step of every run either leaves all contents as they are or is one of
 * five moves, and the sizes of what is spilled and stolen are those of the code.
 */
module StealingMoves {
  import opened StealingQueue

  /** The values of a queue, the oldest first. */
  function Contents(q: Queue): seq<Value>
    requires q.head <= |q.log|
  {
    q.log[q.head..]
  }

  ghost predicate Rings(s: State) {
    forall u :: 0 <= u < |s.queues| ==> s.queues[u].head <= |s.queues[u].log|
  }

  /** Only thread t's queue changes, and the value that local_pop or steal returns is in out. */
  ghost predicate OnlyOwn(s: State, t: nat, s': State, contents: seq<Value>, out: multiset<Value>)
    requires t < |s.queues| && Rings(s) && Rings(s')
  {
    && |s'.queues| == |s.queues| && (forall u :: 0 <= u < |s.queues| && u != t ==> s'.queues[u] == s.queues[u])
    && Contents(s'.queues[t]) == contents && s'.returned == s.returned + out
  }

  /** Half the capacity and one more. */
  predicate SpillSize(n: nat, cap: nat) { 2 * n == cap + 2 || 2 * n == cap + 1 }

  /** The larger half of k values, or less if only room values fit. */
  predicate StealSize(n: nat, k: nat, room: nat) {
    n == room < (k + 1) / 2 || (n <= room && (2 * n == k || 2 * n == k + 1))
  }

  // ----- local_push

  /** There is room exactly if fewer values than the capacity are in the queue. */
  lemma PushChecks(s: State, t: nat)
    requires Inv(s) && t < |s.queues| && s.queues[t].pc.PushLoad?
    ensures Rings(s) && Rings(Pushing(s, t)) && OnlyOwn(s, t, Pushing(s, t), Contents(s.queues[t]), multiset{})
    ensures var pc, v := Pushing(s, t).queues[t].pc, s.queues[t].pc.v;
      pc == if |Contents(s.queues[t])| < s.cap then PushBuf(v) else PushCas(v, s.queues[t].head)
  {
    assert forall u :: 0 <= u < |s.queues| ==> RingOK(s.queues[u], s.cap);
  }

  /** With room the value goes to the end. */
  lemma PushAppends(s: State, t: nat)
    requires Inv(s) && t < |s.queues| && s.queues[t].pc.PushTail?
    ensures Rings(s) && Rings(Pushing(s, t)) && |Contents(s.queues[t])| < s.cap
    ensures OnlyOwn(s, t, Pushing(s, t), Contents(s.queues[t]) + [s.queues[t].pc.v], multiset{})
    ensures Pushing(s, t).queues[t].pc == Idle
  {
    assert PcOK(s, t);
    assert forall u :: 0 <= u < |s.queues| ==> RingOK(s.queues[u], s.cap);
  }

  /** A full queue loses its oldest values, half of its capacity and one more; they are what is spilled. */
  lemma PushTakesHalf(s: State, t: nat)
    requires Inv(s) && t < |s.queues| && s.queues[t].pc.PushCas? && s.queues[t].head == s.queues[t].pc.h
    ensures Rings(s) && Rings(Pushing(s, t)) && |Contents(s.queues[t])| == s.cap
    ensures var pc := Pushing(s, t).queues[t].pc; pc.PushSpill? && pc.i == 0 && pc.h == s.queues[t].head && pc.v == s.queues[t].pc.v
    ensures exists n: nat :: SpillSize(n, s.cap) && n <= s.cap
              && OnlyOwn(s, t, Pushing(s, t), Contents(s.queues[t])[n..], multiset{})
  {
    var q := s.queues[t];
    assert PcOK(s, t) && RingOK(q, s.cap);
    assert forall u :: 0 <= u < |s.queues| ==> RingOK(s.queues[u], s.cap);
    var n := SpillCount(s.cap);
    assert SpillSize(n, s.cap) && q.log[q.head..][n..] == q.log[q.head + n..];
  }

  /** The spilled values go to overflow_f one by one, in their order, and then the new one. */
  lemma PushSpills(s: State, t: nat)
    requires Inv(s) && t < |s.queues| && s.queues[t].pc.PushSpill?
    ensures Rings(s) && Rings(Pushing(s, t)) && OnlyOwn(s, t, Pushing(s, t), Contents(s.queues[t]), multiset{})
    ensures exists n: nat :: SpillSize(n, s.cap) && s.queues[t].pc.i <= n && SpillsNext(s, t, Pushing(s, t), n)
  {
    assert PcOK(s, t);
    assert forall u :: 0 <= u < |s.queues| ==> RingOK(s.queues[u], s.cap);
    assert SpillSize(SpillCount(s.cap), s.cap) && SpillsNext(s, t, Pushing(s, t), SpillCount(s.cap));
  }

  /** Of n spilled values the next one, or after them the new one. */
  ghost predicate SpillsNext(s: State, t: nat, s': State, n: nat)
    requires t < |s.queues| && s.queues[t].pc.PushSpill?
  {
    var q, pc := s.queues[t], s.queues[t].pc;
    t < |s'.queues| &&
    if pc.i < n then
      pc.h + pc.i < |q.log| && s'.overflowed == s.overflowed + multiset{q.log[pc.h + pc.i]}
      && s'.queues[t].pc == PushSpill(pc.v, pc.h, pc.i + 1)
    else s'.overflowed == s.overflowed + multiset{pc.v} && s'.queues[t].pc == Idle
  }

  // ----- local_pop

  /** local_pop finds nothing exactly if the queue is empty. */
  lemma PopChecks(s: State, t: nat)
    requires Inv(s) && t < |s.queues| && s.queues[t].pc.PopLoad?
    ensures Rings(s) && Rings(Popping(s, t)) && OnlyOwn(s, t, Popping(s, t), Contents(s.queues[t]), multiset{})
    ensures Popping(s, t).queues[t].pc == Idle <==> Contents(s.queues[t]) == []
  {
    assert forall u :: 0 <= u < |s.queues| ==> RingOK(s.queues[u], s.cap);
  }

  /** It takes the oldest value if nobody else has moved the head since, and then returns it. */
  lemma PopTakesOldest(s: State, t: nat)
    requires Inv(s) && t < |s.queues| && s.queues[t].pc.PopCas?
    ensures Rings(s) && Rings(Popping(s, t)) && Popping(s, t).queues[t].pc == Idle
    ensures var q := s.queues[t];
      if q.head == q.pc.h then Contents(q) != [] && OnlyOwn(s, t, Popping(s, t), Contents(q)[1..], multiset{Contents(q)[0]})
      else OnlyOwn(s, t, Popping(s, t), Contents(q), multiset{})
  {
    PopValue(s, t);
    assert forall u :: 0 <= u < |s.queues| ==> RingOK(s.queues[u], s.cap);
  }

  // ----- steal

  /** The size of the batch: the larger half of what the loaded positions say, or all that fits; with neither it gives up. */
  lemma StealSizes(s: State, t: nat)
    requires Inv(s) && t < |s.queues| && s.queues[t].pc.StealTail?
    ensures var q, s' := s.queues[t], Stealing(s, t);
      var o, oh := q.pc.o, q.pc.oh;
      var pc, room := s'.queues[t].pc, q.pc.h + s.cap - Tail(q);
      && o < |s.queues| && 0 <= room && s'.queues == s.queues[t := q.(pc := pc)]
      && (var k := Tail(s.queues[o]) - oh;
          if k < 0 || k > s.cap then pc == StealLoad(o)
          else if k == 0 || room == 0 then pc == Idle
          else pc.StealRead? && pc.o == o && pc.oh == oh && pc.i == 0 && StealSize(pc.n, k, room))
  {
    assert PcOK(s, t) && RingOK(s.queues[t], s.cap);
  }

  /** A won steal takes exactly the batch of its size off the front of the other queue. */
  lemma StealTakesOldest(s: State, t: nat)
    requires Inv(s) && t < |s.queues| && s.queues[t].pc.StealCas? && s.queues[t].pc.o < |s.queues|
    requires s.queues[s.queues[t].pc.o].head == s.queues[t].pc.oh
    ensures var q, s' := s.queues[t], Stealing(s, t);
      var o, n := q.pc.o, q.pc.n;
      && Rings(s) && Rings(s') && o != t && 0 < n <= |Contents(s.queues[o])|
      && s'.queues[t] == q.(pc := StealPublish(Contents(s.queues[o])[..n]))
      && OnlyOwn(s, o, s'.(queues := s'.queues[t := q]), Contents(s.queues[o])[n..], multiset{})
  {
    assert PcOK(s, t);
    StealWinsQueues(s, t);
    assert forall u :: 0 <= u < |s.queues| ==> RingOK(s.queues[u], s.cap);
    var o, n := s.queues[t].pc.o, s.queues[t].pc.n;
    assert s.queues[o].log[s.queues[o].head..][n..] == s.queues[o].log[s.queues[o].head + n..];
    assert s.queues[o].log[s.queues[o].head..][..n] == s.queues[o].log[s.queues[o].head..s.queues[o].head + n];
  }

  lemma Appended(log: seq<Value>, head: nat, more: seq<Value>)
    requires head <= |log|
    ensures (log + more)[head..] == log[head..] + more
  {
  }

  /** It keeps the order: all but the youngest of the batch go to the end of its own queue, and that one is returned. */
  lemma StealPublishes(s: State, t: nat)
    requires Inv(s) && t < |s.queues| && s.queues[t].pc.StealPublish?
    ensures var q := s.queues[t];
      var batch, m := q.pc.batch, |q.pc.batch| - 1;
      && batch != [] && Rings(s) && Rings(Stealing(s, t)) && Stealing(s, t).queues[t].pc == Idle
      && OnlyOwn(s, t, Stealing(s, t), Contents(q) + batch[..m], multiset{batch[m]})
  {
    assert PcOK(s, t);
    assert forall u :: 0 <= u < |s.queues| ==> RingOK(s.queues[u], s.cap);
    var q := s.queues[t];
    PublishedLog(s, t);
    Appended(q.log, q.head, q.pc.batch[..|q.pc.batch| - 1]);
  }

  // ----- any step

  /** The steps that move values. */
  predicate Moves(s: State, t: nat)
    requires t < |s.queues|
  {
    var pc := s.queues[t].pc;
    || pc.PushTail? || (pc.PushCas? && s.queues[t].head == pc.h) || (pc.PopCas? && s.queues[t].head == pc.h)
    || (pc.StealCas? && pc.o < |s.queues| && s.queues[pc.o].head == pc.oh) || pc.StealPublish?
  }

  ghost predicate MovesNothing(s: State, t: nat, s': State)
    requires t < |s.queues|
  {
    Rings(s) && Rings(s') && OnlyOwn(s, t, s', Contents(s.queues[t]), multiset{})
  }

  lemma PushMovesNothing(s: State, t: nat)
    requires Inv(s) && t < |s.queues| && !Moves(s, t)
    ensures MovesNothing(s, t, Pushing(s, t))
  {
    assert PcOK(s, t);
    assert forall u :: 0 <= u < |s.queues| ==> RingOK(s.queues[u], s.cap);
  }

  lemma PopMovesNothing(s: State, t: nat)
    requires Inv(s) && t < |s.queues| && !Moves(s, t)
    ensures MovesNothing(s, t, Popping(s, t))
  {
    assert forall u :: 0 <= u < |s.queues| ==> RingOK(s.queues[u], s.cap);
  }

  lemma StealMovesNothing(s: State, t: nat)
    requires Inv(s) && t < |s.queues| && !Moves(s, t)
    ensures MovesNothing(s, t, Stealing(s, t))
  {
    assert PcOK(s, t);
    assert forall u :: 0 <= u < |s.queues| ==> RingOK(s.queues[u], s.cap);
  }

  /** No other step changes what any queue holds, nor returns a value. */
  lemma OtherStepsMoveNothing(s: State, t: nat)
    requires Inv(s) && t < |s.queues| && s.queues[t].pc != Idle && !Moves(s, t)
    ensures MovesNothing(s, t, Do(s, t, Advance))
  {
    PushMovesNothing(s, t);
    PopMovesNothing(s, t);
    StealMovesNothing(s, t);
  }
}
