/**
 * The work-stealing ring of pxcutils/pxc/utils/StealingQueue.h, as a state machine with one
 * step per shared-memory access, for any number of queues.  Thread t owns queue t; it
 * pushes and pops there, and steals from the other queues into its own.
 *
 * The theorem: under every interleaving each inserted value is in exactly one place (a
 * queue, the hands of the thread that is moving it, returned, or overflowed), and no queue
 * ever holds more than its capacity.
 */
module StealingQueue {
  type Value = int

  // ----- state

  /** Where a thread is in local_push, local_pop or steal; local variables are arguments. */
  datatype Pc =
    | Idle
    | PushLoad(v: Value)
    | PushBuf(v: Value)                      // there is room: about to store the value
    | PushTail(v: Value)                     // stored it: about to publish the tail
    | PushCas(v: Value, h: nat)              // full: about to take the older half off
    | PushSpill(v: Value, h: nat, i: nat)    // took it: hands over the i-th value next
    | PopLoad
    | PopRead(h: nat)
    | PopCas(h: nat, v: Value)
    | StealLoad(o: nat)
    | StealHead(o: nat, h: nat)
    | StealTail(o: nat, h: nat, oh: nat)
    | StealRead(o: nat, oh: nat, n: nat, i: nat)
    | StealWrite(o: nat, oh: nat, n: nat, i: nat, v: Value)
    | StealCas(o: nat, oh: nat, n: nat)
    | StealPublish(batch: seq<Value>)        // won the batch: about to publish all but its last value

  /** log is history: the value published at each position; its length is the tail. */
  datatype Queue = Queue(head: nat, buf: seq<Value>, log: seq<Value>, pc: Pc)

  datatype State = State(
    cap: nat, queues: seq<Queue>,
    inserted: multiset<Value>, returned: multiset<Value>, overflowed: multiset<Value>)

  function Tail(q: Queue): nat { |q.log| }

  ghost predicate Init(s: State) {
    && s.cap > 0
    && (forall t :: 0 <= t < |s.queues| ==>
          && |s.queues[t].buf| == s.cap && s.queues[t].head == 0 && s.queues[t].log == [] && s.queues[t].pc == Idle)
    && s.inserted == multiset{} && s.returned == multiset{} && s.overflowed == multiset{}
  }

  /** The slot of a position, p modulo cap; the code masks with a power of two. */
  function Slot(p: nat, cap: nat): (i: nat)
    requires cap > 0
    ensures i < cap
  {
    if p < cap then p else Slot(p - cap, cap)
  }

  // ----- steps

  datatype Action = StartPush(v: Value) | StartPop | StartSteal(from: nat) | Advance

  ghost predicate Enabled(s: State, t: nat, a: Action) {
    && t < |s.queues|
    && match a
       case StartPush(v) => s.queues[t].pc == Idle
       case StartPop => s.queues[t].pc == Idle
       case StartSteal(o) => s.queues[t].pc == Idle && o < |s.queues| && o != t
       case Advance => s.queues[t].pc != Idle
  }

  function Put(s: State, t: nat, q: Queue): State
    requires t < |s.queues|
  {
    s.(queues := s.queues[t := q])
  }

  /** How many values a full queue gives up. */
  function SpillCount(cap: nat): nat { cap / 2 + 1 }

  function Min(a: int, b: int): int { if a < b then a else b }

  function Pushing(s: State, t: nat): State
    requires t < |s.queues| && s.cap > 0 && |s.queues[t].buf| == s.cap
  {
    var q := s.queues[t];
    match q.pc
    case PushLoad(v) =>
      Put(s, t, q.(pc := if Tail(q) - q.head < s.cap then PushBuf(v) else PushCas(v, q.head)))
    case PushBuf(v) =>
      Put(s, t, q.(buf := q.buf[Slot(Tail(q), s.cap) := v], pc := PushTail(v)))
    case PushTail(v) =>
      Put(s, t, q.(log := q.log + [v], pc := Idle))
    case PushCas(v, h) =>
      if q.head == h then Put(s, t, q.(head := h + SpillCount(s.cap), pc := PushSpill(v, h, 0)))
      else Put(s, t, q.(pc := PushLoad(v)))
    case PushSpill(v, h, i) =>
      if i < SpillCount(s.cap) then
        Put(s, t, q.(pc := PushSpill(v, h, i + 1))).(overflowed := s.overflowed + multiset{q.buf[Slot(i + h, s.cap)]})
      else
        Put(s, t, q.(pc := Idle)).(overflowed := s.overflowed + multiset{v})
    case _ => s
  }

  function Popping(s: State, t: nat): State
    requires t < |s.queues| && s.cap > 0 && |s.queues[t].buf| == s.cap
  {
    var q := s.queues[t];
    match q.pc
    case PopLoad =>
      Put(s, t, q.(pc := if q.head == Tail(q) then Idle else PopRead(q.head)))
    case PopRead(h) =>
      Put(s, t, q.(pc := PopCas(h, q.buf[Slot(h, s.cap)])))
    case PopCas(h, v) =>
      if q.head == h then Put(s, t, q.(head := h + 1, pc := Idle)).(returned := s.returned + multiset{v})
      else Put(s, t, q.(pc := Idle))
    case _ => s
  }

  /** The size of the batch to steal, from the loaded positions. */
  function BatchSize(cap: nat, ownTail: int, ownHead: int, otherHead: int, otherTail: int): int {
    var n := otherTail - otherHead;
    Min(n - n / 2, ownHead + cap - ownTail)
  }

  function Stealing(s: State, t: nat): State
    requires t < |s.queues| && s.cap > 0 && |s.queues[t].buf| == s.cap
    requires forall o :: 0 <= o < |s.queues| ==> |s.queues[o].buf| == s.cap
  {
    var q := s.queues[t];
    match q.pc
    case StealLoad(o) =>
      Put(s, t, q.(pc := StealHead(o, q.head)))
    case StealHead(o, h) =>
      if o < |s.queues| then Put(s, t, q.(pc := StealTail(o, h, s.queues[o].head))) else s
    case StealTail(o, h, oh) =>
      if o < |s.queues| then
        var ot := Tail(s.queues[o]);
        if ot < oh || ot - oh > s.cap then Put(s, t, q.(pc := StealLoad(o)))
        else
          var n := BatchSize(s.cap, Tail(q), h, oh, ot);
          if n <= 0 then Put(s, t, q.(pc := Idle))
          else Put(s, t, q.(pc := StealRead(o, oh, n, 0)))
      else s
    case StealRead(o, oh, n, i) =>
      if i < n then
        if o < |s.queues| then Put(s, t, q.(pc := StealWrite(o, oh, n, i, s.queues[o].buf[Slot(i + oh, s.cap)]))) else s
      else Put(s, t, q.(pc := StealCas(o, oh, n)))
    case StealWrite(o, oh, n, i, v) =>
      Put(s, t, q.(buf := q.buf[Slot(i + Tail(q), s.cap) := v], pc := StealRead(o, oh, n, i + 1)))
    case StealCas(o, oh, n) =>
      if o < |s.queues| && o != t then
        var other := s.queues[o];
        if other.head == oh then
          var batch := seq(n, j requires 0 <= j => q.buf[Slot(j + Tail(q), s.cap)]);
          Put(Put(s, t, q.(pc := StealPublish(batch))), o, other.(head := oh + n))
        else Put(s, t, q.(pc := StealLoad(o)))
      else s
    case StealPublish(batch) =>
      if batch == [] then s
      else
        var n := |batch| - 1;
        Put(s, t, q.(log := q.log + seq(n, j requires 0 <= j => q.buf[Slot(j + Tail(q), s.cap)]), pc := Idle))
          .(returned := s.returned + multiset{q.buf[Slot(n + Tail(q), s.cap)]})
    case _ => s
  }

  ghost predicate Shape(s: State) {
    s.cap > 0 && forall t :: 0 <= t < |s.queues| ==> |s.queues[t].buf| == s.cap
  }

  function Do(s: State, t: nat, a: Action): State
    requires Enabled(s, t, a) && Shape(s)
  {
    var q := s.queues[t];
    match a
    case StartPush(v) => Put(s, t, q.(pc := PushLoad(v))).(inserted := s.inserted + multiset{v})
    case StartPop => Put(s, t, q.(pc := PopLoad))
    case StartSteal(o) => Put(s, t, q.(pc := StealLoad(o)))
    case Advance =>
      if q.pc.PushLoad? || q.pc.PushBuf? || q.pc.PushTail? || q.pc.PushCas? || q.pc.PushSpill? then Pushing(s, t)
      else if q.pc.PopLoad? || q.pc.PopRead? || q.pc.PopCas? then Popping(s, t)
      else Stealing(s, t)
  }

  ghost predicate Next(s: State, s': State) {
    Shape(s) && exists t, a :: Enabled(s, t, a) && s' == Do(s, t, a)
  }

  // ----- who holds what

  function One(x: Value, v: Value): nat { if x == v then 1 else 0 }

  function Copies(a: seq<Value>, v: Value): nat { multiset(a)[v] }

  /** How many copies of v the thread has in its hands. */
  ghost function InFlight(q: Queue, cap: nat, v: Value): nat {
    match q.pc
    case PushLoad(x) => One(x, v)
    case PushBuf(x) => One(x, v)
    case PushTail(x) => One(x, v)
    case PushCas(x, h) => One(x, v)
    case PushSpill(x, h, i) =>
      One(x, v) + (if h + i <= h + SpillCount(cap) <= |q.log| then Copies(q.log[h + i..h + SpillCount(cap)], v) else 0)
    case StealPublish(batch) => Copies(batch, v)
    case _ => 0
  }

  /** How many copies of v are in the queue or in its owner's hands. */
  ghost function Held(q: Queue, cap: nat, v: Value): nat {
    (if q.head <= |q.log| then Copies(q.log[q.head..], v) else 0) + InFlight(q, cap, v)
  }

  ghost function TotalHeld(qs: seq<Queue>, cap: nat, v: Value): nat {
    if qs == [] then 0 else Held(qs[0], cap, v) + TotalHeld(qs[1..], cap, v)
  }

  lemma CopiesSplit(a: seq<Value>, b: seq<Value>, c: seq<Value>, v: Value)
    requires a == b + c
    ensures Copies(a, v) == Copies(b, v) + Copies(c, v)
  {
  }

  /** Every inserted value is held, returned or overflowed, as many times as it was inserted. */
  ghost predicate Conserved(s: State) {
    forall v :: s.inserted[v] == TotalHeld(s.queues, s.cap, v) + s.returned[v] + s.overflowed[v]
  }

  lemma {:induction false} TotalUpdate(qs: seq<Queue>, cap: nat, t: nat, q: Queue, v: Value)
    requires t < |qs|
    ensures TotalHeld(qs[t := q], cap, v) + Held(qs[t], cap, v) == TotalHeld(qs, cap, v) + Held(q, cap, v)
  {
    if t == 0 {
      assert qs[t := q][1..] == qs[1..];
    } else {
      assert qs[t := q][1..] == qs[1..][t - 1 := q];
      TotalUpdate(qs[1..], cap, t - 1, q, v);
    }
  }

  // ----- the invariant

  ghost predicate RingOK(q: Queue, cap: nat)
    requires |q.buf| == cap > 0
  {
    && q.head <= Tail(q) <= q.head + cap
    && forall p :: q.head <= p < Tail(q) ==> q.buf[Slot(p, cap)] == q.log[p]
  }

  /** The values a thief has copied so far, as long as nobody moved the victim's head. */
  ghost predicate Copied(s: State, q: Queue, o: nat, oh: nat, n: nat, i: nat)
    requires Shape(s) && |q.buf| == s.cap
  {
    && o < |s.queues|
    && oh <= s.queues[o].head
    && 0 < n && oh + n <= Tail(s.queues[o]) && Tail(q) + n <= q.head + s.cap
    && i <= n
    && (s.queues[o].head == oh ==> Matches(q.buf, s.cap, Tail(q), s.queues[o].log, oh, i))
  }

  /** The i slots from position tail hold the victim's values from position oh. */
  ghost predicate Matches(buf: seq<Value>, cap: nat, tail: nat, log: seq<Value>, oh: nat, i: nat)
    requires |buf| == cap > 0 && oh + i <= |log|
  {
    forall p :: oh <= p < oh + i ==> buf[Slot(p - oh + tail, cap)] == log[p]
  }

  lemma MatchesMore(buf: seq<Value>, cap: nat, tail: nat, log: seq<Value>, oh: nat, i: nat)
    requires |buf| == cap > 0 && oh + i < |log| && i < cap && Matches(buf, cap, tail, log, oh, i)
    ensures Matches(buf[Slot(i + tail, cap) := log[oh + i]], cap, tail, log, oh, i + 1)
  {
    var buf' := buf[Slot(i + tail, cap) := log[oh + i]];
    forall p | oh <= p < oh + i + 1 ensures buf'[Slot(p - oh + tail, cap)] == log[p] {
      if p < oh + i { Distinct(p - oh + tail, i + tail, cap); }
    }
  }

  ghost predicate PcOK(s: State, t: nat)
    requires Shape(s) && t < |s.queues|
  {
    var q := s.queues[t];
    match q.pc
    case Idle => true
    case PushLoad(v) => true
    case PushBuf(v) => Tail(q) < q.head + s.cap
    case PushTail(v) => Tail(q) < q.head + s.cap && q.buf[Slot(Tail(q), s.cap)] == v
    case PushCas(v, h) => h <= q.head && h + s.cap <= Tail(q)
    case PushSpill(v, h, i) =>
      && i <= SpillCount(s.cap) && h + SpillCount(s.cap) <= Tail(q) <= h + s.cap
      && forall p :: h + i <= p < h + SpillCount(s.cap) ==> q.buf[Slot(p, s.cap)] == q.log[p]
    case PopLoad => true
    case PopRead(h) => h <= q.head && h < Tail(q)
    case PopCas(h, v) => h <= q.head && h < Tail(q) && (q.head == h ==> v == q.log[h])
    case StealLoad(o) => o < |s.queues| && o != t
    case StealHead(o, h) => o < |s.queues| && o != t && h <= q.head && Tail(q) <= h + s.cap
    case StealTail(o, h, oh) => o < |s.queues| && o != t && h <= q.head && Tail(q) <= h + s.cap && oh <= s.queues[o].head
    case StealRead(o, oh, n, i) => o != t && Copied(s, q, o, oh, n, i)
    case StealWrite(o, oh, n, i, v) =>
      && o != t && Copied(s, q, o, oh, n, i) && i < n
      && (s.queues[o].head == oh ==> v == s.queues[o].log[oh + i])
    case StealCas(o, oh, n) => o != t && Copied(s, q, o, oh, n, n)
    case StealPublish(batch) =>
      && batch != [] && Tail(q) + |batch| <= q.head + s.cap
      && forall j :: 0 <= j < |batch| ==> q.buf[Slot(j + Tail(q), s.cap)] == batch[j]
  }

  ghost predicate Inv(s: State) {
    && Shape(s)
    && (forall t :: 0 <= t < |s.queues| ==> RingOK(s.queues[t], s.cap))
    && (forall t :: 0 <= t < |s.queues| ==> PcOK(s, t))
    && Conserved(s)
  }

  // ----- ring positions

  lemma {:induction false} SlotIsRemainder(p: nat, cap: nat)
    requires cap > 0
    ensures Slot(p, cap) == p % cap
  {
    if p >= cap {
      SlotIsRemainder(p - cap, cap);
      RemainderBack(p, cap);
    }
  }

  lemma RemainderBack(p: nat, cap: nat)
    requires 0 < cap <= p
    ensures p % cap == (p - cap) % cap
  {
    var d := p / cap - 1 - (p - cap) / cap;
    assert cap * d == (p - cap) % cap - p % cap;
    MultipleGrows(cap, d);
  }

  lemma MultipleGrows(cap: int, d: int)
    requires cap > 0
    ensures d >= 1 ==> cap * d >= cap
    ensures d <= -1 ==> cap * d <= -cap
  {
    if d >= 1 {
      assert cap * (d - 1) >= 0;
    } else if d <= -1 {
      assert cap * (d + 1) <= 0;
    }
  }

  /** Two positions less than a ring apart have different slots. */
  lemma {:induction false} Distinct(a: nat, b: nat, cap: nat)
    requires cap > 0 && a < b < a + cap
    ensures Slot(a, cap) != Slot(b, cap)
  {
    if a >= cap {
      Distinct(a - cap, b - cap, cap);
    } else if b >= cap {
      assert Slot(b, cap) == b - cap;
    }
  }

  // ----- every step keeps the invariant

  /** Seen from outside, a queue only moves its head and its tail forward. */
  ghost predicate Evolves(q: Queue, q': Queue) {
    q'.head >= q.head && q.log <= q'.log
  }

  lemma Keeps(s: State, s': State, u: nat)
    requires Shape(s) && Shape(s') && s'.cap == s.cap && |s'.queues| == |s.queues| && u < |s.queues| && PcOK(s, u)
    requires forall o :: 0 <= o < |s.queues| ==> Evolves(s.queues[o], s'.queues[o])
    requires s'.queues[u].pc == s.queues[u].pc && s'.queues[u].buf == s.queues[u].buf && s'.queues[u].log == s.queues[u].log
    ensures PcOK(s', u)
  {
  }

  /** What thread t gains or loses in a step is what was inserted, returned or overflowed in it. */
  ghost predicate Balanced(s: State, s': State, t: nat, v: Value)
    requires t < |s.queues| == |s'.queues|
  {
    s'.inserted[v] + s.returned[v] + s.overflowed[v] + Held(s.queues[t], s.cap, v)
    == s.inserted[v] + s'.returned[v] + s'.overflowed[v] + Held(s'.queues[t], s.cap, v)
  }

  /** A step of thread t that changes only its own queue. */
  lemma OwnStep(s: State, t: nat, s': State)
    requires Inv(s) && t < |s.queues| == |s'.queues| && s'.queues == s.queues[t := s'.queues[t]] && s'.cap == s.cap
    requires |s'.queues[t].buf| == s.cap && Evolves(s.queues[t], s'.queues[t]) && RingOK(s'.queues[t], s.cap)
    requires Shape(s') && PcOK(s', t)
    requires forall v :: Balanced(s, s', t, v)
    ensures Inv(s')
  {
    forall u | 0 <= u < |s'.queues| && u != t ensures PcOK(s', u) {
      Keeps(s, s', u);
    }
    forall v ensures s'.inserted[v] == TotalHeld(s'.queues, s'.cap, v) + s'.returned[v] + s'.overflowed[v] {
      assert Balanced(s, s', t, v);
      TotalUpdate(s.queues, s.cap, t, s'.queues[t], v);
    }
  }

  lemma StoreSlot(q: Queue, cap: nat, p: nat, v: Value)
    requires |q.buf| == cap > 0 && RingOK(q, cap) && Tail(q) <= p < q.head + cap
    ensures RingOK(q.(buf := q.buf[Slot(p, cap) := v]), cap)
  {
    forall r | q.head <= r < Tail(q) ensures Slot(r, cap) != Slot(p, cap) {
      Distinct(r, p, cap);
    }
  }

  lemma StartInv(s: State, t: nat, a: Action)
    requires Inv(s) && Enabled(s, t, a) && !a.Advance?
    ensures Inv(Do(s, t, a))
  {
    assert RingOK(s.queues[t], s.cap);
    OwnStep(s, t, Do(s, t, a));
  }

  lemma PushLoadOk(s: State, t: nat)
    requires Inv(s) && t < |s.queues| && s.queues[t].pc.PushLoad?
    ensures RingOK(Pushing(s, t).queues[t], s.cap) && PcOK(Pushing(s, t), t)
  {
    var q := s.queues[t];
    assert PcOK(s, t) && RingOK(q, s.cap);
  }

  lemma PushLoadBalance(s: State, t: nat, v: Value)
    requires Inv(s) && t < |s.queues| && s.queues[t].pc.PushLoad?
    ensures Balanced(s, Pushing(s, t), t, v)
  {
    var q := s.queues[t];
    assert PcOK(s, t) && RingOK(q, s.cap);
  }

  lemma PushBufOk(s: State, t: nat)
    requires Inv(s) && t < |s.queues| && s.queues[t].pc.PushBuf?
    ensures RingOK(Pushing(s, t).queues[t], s.cap) && PcOK(Pushing(s, t), t)
  {
    var q := s.queues[t];
    assert PcOK(s, t) && RingOK(q, s.cap);
    StoreSlot(q, s.cap, Tail(q), q.pc.v);
  }

  lemma PushBufBalance(s: State, t: nat, v: Value)
    requires Inv(s) && t < |s.queues| && s.queues[t].pc.PushBuf?
    ensures Balanced(s, Pushing(s, t), t, v)
  {
    var q := s.queues[t];
    assert PcOK(s, t) && RingOK(q, s.cap);
  }

  lemma PushTailOk(s: State, t: nat)
    requires Inv(s) && t < |s.queues| && s.queues[t].pc.PushTail?
    ensures RingOK(Pushing(s, t).queues[t], s.cap) && PcOK(Pushing(s, t), t)
  {
    var q := s.queues[t];
    assert PcOK(s, t) && RingOK(q, s.cap);
  }

  lemma PushTailBalance(s: State, t: nat, v: Value)
    requires Inv(s) && t < |s.queues| && s.queues[t].pc.PushTail?
    ensures Balanced(s, Pushing(s, t), t, v)
  {
    var q := s.queues[t];
    assert PcOK(s, t) && RingOK(q, s.cap);
    var log' := q.log + [q.pc.v];
    CopiesSplit(log'[q.head..], q.log[q.head..], [q.pc.v], v);
  }

  lemma PushCasOk(s: State, t: nat)
    requires Inv(s) && t < |s.queues| && s.queues[t].pc.PushCas?
    ensures RingOK(Pushing(s, t).queues[t], s.cap) && PcOK(Pushing(s, t), t)
  {
    var q := s.queues[t];
    assert PcOK(s, t) && RingOK(q, s.cap);
  }

  ghost predicate SameHistory(s: State, s': State) {
    |s'.queues| == |s.queues| && s'.inserted == s.inserted && s'.returned == s.returned && s'.overflowed == s.overflowed
  }

  lemma PushCasValue(s: State, t: nat)
    requires Inv(s) && t < |s.queues| && s.queues[t].pc.PushCas?
    ensures var q, s' := s.queues[t], Pushing(s, t);
      SameHistory(s, s') && CasStep(q, s'.queues[t], s.cap)
  {
    assert PcOK(s, t) && RingOK(s.queues[t], s.cap);
  }

  /** What the exchange of the head does: it makes room by taking the oldest values, or nothing. */
  ghost predicate CasStep(q: Queue, q': Queue, cap: nat) {
    var n := SpillCount(cap);
    && q.pc.PushCas?
    && if q.head == q.pc.h then q.head + n <= |q.log| && q' == q.(head := q.head + n, pc := PushSpill(q.pc.v, q.head, 0))
       else q' == q.(pc := PushLoad(q.pc.v))
  }

  lemma CopiesCut(log: seq<Value>, h: nat, n: nat, v: Value)
    requires h + n <= |log|
    ensures Copies(log[h..], v) == Copies(log[h..h + n], v) + Copies(log[h + n..], v)
  {
    assert log[h..] == log[h..h + n] + log[h + n..];
    CopiesSplit(log[h..], log[h..h + n], log[h + n..], v);
  }

  /** What a spill that begins holds. */
  lemma SpillBegins(q: Queue, cap: nat, h: nat, x: Value, v: Value)
    requires q.pc == PushSpill(x, h, 0) && h + SpillCount(cap) <= |q.log|
    ensures InFlight(q, cap, v) == One(x, v) + Copies(q.log[h..h + SpillCount(cap)], v)
  {
    assert h + 0 == h;
  }

  lemma CasHeld(q: Queue, q': Queue, cap: nat, v: Value)
    requires CasStep(q, q', cap)
    ensures Held(q', cap, v) == Held(q, cap, v)
  {
    if q.head == q.pc.h {
      SpillBegins(q', cap, q.head, q.pc.v, v);
      CopiesCut(q.log, q.head, SpillCount(cap), v);
    } else {
      SameTail(q, q', cap, v);
    }
  }

  lemma BalancedSame(s: State, s': State, t: nat, v: Value)
    requires SameHistory(s, s') && t < |s.queues| && Held(s'.queues[t], s.cap, v) == Held(s.queues[t], s.cap, v)
    ensures Balanced(s, s', t, v)
  {
  }

  lemma PushCasBalance(s: State, t: nat, v: Value)
    requires Inv(s) && t < |s.queues| && s.queues[t].pc.PushCas?
    ensures Balanced(s, Pushing(s, t), t, v)
  {
    PushCasValue(s, t);
    CasHeld(s.queues[t], Pushing(s, t).queues[t], s.cap, v);
    BalancedSame(s, Pushing(s, t), t, v);
  }

  lemma PushSpillOk(s: State, t: nat)
    requires Inv(s) && t < |s.queues| && s.queues[t].pc.PushSpill?
    ensures RingOK(Pushing(s, t).queues[t], s.cap) && PcOK(Pushing(s, t), t)
  {
    var q := s.queues[t];
    assert PcOK(s, t) && RingOK(q, s.cap);
  }

  lemma PushSpillBalance(s: State, t: nat, v: Value)
    requires Inv(s) && t < |s.queues| && s.queues[t].pc.PushSpill?
    ensures Balanced(s, Pushing(s, t), t, v)
  {
    PushSpillValue(s, t);
    SpillBalance(s, Pushing(s, t), t, v);
  }

  lemma SpillBalance(s: State, s': State, t: nat, v: Value)
    requires SpillStep(s, s', t)
    ensures Balanced(s, s', t, v)
  {
    SpillFlight(s.queues[t], s.cap, v);
    SameTail(s.queues[t], s'.queues[t], s.cap, v);
  }

  lemma SameTail(q: Queue, q': Queue, cap: nat, v: Value)
    requires q'.head == q.head && q'.log == q.log
    ensures Held(q', cap, v) - InFlight(q', cap, v) == Held(q, cap, v) - InFlight(q, cap, v)
  {
  }

  /** One value of the spilled batch, or the pushed one at last, goes to the overflow. */
  ghost predicate SpillStep(s: State, s': State, t: nat) {
    && t < |s.queues| == |s'.queues| && s.queues[t].pc.PushSpill?
    && (var q, n := s.queues[t], SpillCount(s.cap);
        var h, i, x := q.pc.h, q.pc.i, q.pc.v;
        && i <= n && h + n <= |q.log| && s'.inserted == s.inserted && s'.returned == s.returned
        && s'.queues[t] == q.(pc := if i < n then PushSpill(x, h, i + 1) else Idle)
        && s'.overflowed == s.overflowed + multiset{if i < n then q.log[h + i] else x})
  }

  lemma PushSpillValue(s: State, t: nat)
    requires Inv(s) && t < |s.queues| && s.queues[t].pc.PushSpill?
    ensures SpillStep(s, Pushing(s, t), t)
  {
    assert PcOK(s, t);
  }

  lemma SpillFlight(q: Queue, cap: nat, v: Value)
    requires q.pc.PushSpill? && q.pc.i <= SpillCount(cap) && q.pc.h + SpillCount(cap) <= |q.log|
    ensures q.pc.i < SpillCount(cap) ==>
      InFlight(q, cap, v) == InFlight(q.(pc := PushSpill(q.pc.v, q.pc.h, q.pc.i + 1)), cap, v) + One(q.log[q.pc.h + q.pc.i], v)
    ensures q.pc.i == SpillCount(cap) ==> InFlight(q, cap, v) == One(q.pc.v, v)
  {
    var n, h, i := SpillCount(cap), q.pc.h, q.pc.i;
    if i < n {
      CopiesNext(q.log, h, i, n, v);
    } else {
      assert q.log[h + i..h + n] == [];
    }
  }

  lemma CopiesNext(log: seq<Value>, h: nat, i: nat, n: nat, v: Value)
    requires i < n && h + n <= |log|
    ensures Copies(log[h + i..h + n], v) == Copies(log[h + (i + 1)..h + n], v) + One(log[h + i], v)
  {
    CopiesSplit(log[h + i..h + n], [log[h + i]], log[h + (i + 1)..h + n], v);
  }

  /** The thread is in neither of the steps that hold values. */
  predicate EmptyHanded(pc: Pc) {
    pc.Idle? || pc.StealLoad? || pc.StealHead? || pc.StealTail? || pc.StealRead? || pc.StealWrite? || pc.StealCas?
    || pc.PopLoad? || pc.PopRead? || pc.PopCas?
  }

  lemma EmptyHandedHeld(q: Queue, q': Queue, cap: nat, v: Value)
    requires EmptyHanded(q.pc) && EmptyHanded(q'.pc) && q'.head == q.head && q'.log == q.log
    ensures Held(q', cap, v) == Held(q, cap, v)
  {
  }

  lemma PopOk(s: State, t: nat)
    requires Inv(s) && t < |s.queues| && (s.queues[t].pc.PopLoad? || s.queues[t].pc.PopRead? || s.queues[t].pc.PopCas?)
    ensures RingOK(Popping(s, t).queues[t], s.cap) && PcOK(Popping(s, t), t)
  {
    var q := s.queues[t];
    assert PcOK(s, t) && RingOK(q, s.cap);
  }

  lemma PopValue(s: State, t: nat)
    requires Inv(s) && t < |s.queues| && (s.queues[t].pc.PopLoad? || s.queues[t].pc.PopRead? || s.queues[t].pc.PopCas?)
    ensures var q, s' := s.queues[t], Popping(s, t);
      && |s'.queues| == |s.queues| && s'.inserted == s.inserted && s'.overflowed == s.overflowed
      && s'.queues[t].log == q.log && EmptyHanded(s'.queues[t].pc)
      && (if q.pc.PopCas? && q.head == q.pc.h
          then q.head < |q.log| && s'.queues[t].head == q.head + 1 && s'.returned == s.returned + multiset{q.log[q.head]}
          else s'.queues[t].head == q.head && s'.returned == s.returned)
  {
    assert PcOK(s, t);
  }

  /** A successful local_pop returns the oldest value of the queue, and only that value leaves it. */
  lemma PopBalance(s: State, t: nat, v: Value)
    requires Inv(s) && t < |s.queues| && (s.queues[t].pc.PopLoad? || s.queues[t].pc.PopRead? || s.queues[t].pc.PopCas?)
    ensures Balanced(s, Popping(s, t), t, v)
  {
    PopValue(s, t);
    var q, q' := s.queues[t], Popping(s, t).queues[t];
    assert RingOK(q, s.cap);
    if q'.head == q.head {
      EmptyHandedHeld(q, q', s.cap, v);
    } else {
      CopiesSplit(q.log[q.head..], [q.log[q.head]], q.log[q.head + 1..], v);
      EmptyHandedHeld(q.(head := q.head + 1), q', s.cap, v);
    }
  }

  lemma StealLoadsOk(s: State, t: nat)
    requires Inv(s) && t < |s.queues| && (s.queues[t].pc.StealLoad? || s.queues[t].pc.StealHead? || s.queues[t].pc.StealTail?)
    ensures RingOK(Stealing(s, t).queues[t], s.cap) && PcOK(Stealing(s, t), t)
  {
    var q := s.queues[t];
    assert PcOK(s, t) && RingOK(q, s.cap);
  }

  lemma StealLoadsBalance(s: State, t: nat, v: Value)
    requires Inv(s) && t < |s.queues| && (s.queues[t].pc.StealLoad? || s.queues[t].pc.StealHead? || s.queues[t].pc.StealTail?)
    ensures Balanced(s, Stealing(s, t), t, v)
  {
    EmptyHandedHeld(s.queues[t], Stealing(s, t).queues[t], s.cap, v);
  }

  lemma StealReadOk(s: State, t: nat)
    requires Inv(s) && t < |s.queues| && s.queues[t].pc.StealRead?
    ensures RingOK(Stealing(s, t).queues[t], s.cap) && PcOK(Stealing(s, t), t)
  {
    var q, s' := s.queues[t], Stealing(s, t);
    assert PcOK(s, t) && RingOK(q, s.cap) && RingOK(s.queues[q.pc.o], s.cap);
    var o, oh, n, i := q.pc.o, q.pc.oh, q.pc.n, q.pc.i;
    assert s'.queues[o] == s.queues[o] && s'.queues[t] == q.(pc := s'.queues[t].pc);
    assert Copied(s', s'.queues[t], o, oh, n, i);
    if i < n && s.queues[o].head == oh {
      assert s.queues[o].buf[Slot(i + oh, s.cap)] == s.queues[o].log[oh + i];
    }
  }

  lemma StealReadBalance(s: State, t: nat, v: Value)
    requires Inv(s) && t < |s.queues| && s.queues[t].pc.StealRead?
    ensures Balanced(s, Stealing(s, t), t, v)
  {
    var q := s.queues[t];
    assert PcOK(s, t) && RingOK(q, s.cap);
  }

  lemma StealWriteOk(s: State, t: nat)
    requires Inv(s) && t < |s.queues| && s.queues[t].pc.StealWrite?
    ensures RingOK(Stealing(s, t).queues[t], s.cap) && PcOK(Stealing(s, t), t)
  {
    var q := s.queues[t];
    assert PcOK(s, t) && RingOK(q, s.cap);
    StoreSlot(q, s.cap, q.pc.i + Tail(q), q.pc.v);
    StealWriteCopied(s, t);
  }

  lemma StealWriteCopied(s: State, t: nat)
    requires Inv(s) && t < |s.queues| && s.queues[t].pc.StealWrite?
    ensures var pc, s' := s.queues[t].pc, Stealing(s, t);
      pc.o != t && s'.queues[t].pc == StealRead(pc.o, pc.oh, pc.n, pc.i + 1)
      && Copied(s', s'.queues[t], pc.o, pc.oh, pc.n, pc.i + 1)
  {
    var q := s.queues[t];
    assert PcOK(s, t) && RingOK(q, s.cap);
    var s' := Stealing(s, t);
    assert s'.queues[q.pc.o] == s.queues[q.pc.o];
    CopiedOneMore(s, s', q, s'.queues[t], q.pc.o, q.pc.oh, q.pc.n, q.pc.i, q.pc.v);
  }

  /** Writing the value read from the victim continues the copy. */
  lemma CopiedOneMore(s: State, s': State, q: Queue, q': Queue, o: nat, oh: nat, n: nat, i: nat, v: Value)
    requires Shape(s) && Shape(s') && s'.cap == s.cap && |s'.queues| == |s.queues| && |q.buf| == s.cap
    requires Copied(s, q, o, oh, n, i) && i < n && q.head <= Tail(q) && s'.queues[o] == s.queues[o]
    requires s.queues[o].head == oh ==> v == s.queues[o].log[oh + i]
    requires q'.head == q.head && q'.log == q.log && q'.buf == q.buf[Slot(i + Tail(q), s.cap) := v]
    ensures Copied(s', q', o, oh, n, i + 1)
  {
    if s.queues[o].head == oh {
      MatchesMore(q.buf, s.cap, Tail(q), s.queues[o].log, oh, i);
    }
  }

  lemma StealWriteBalance(s: State, t: nat, v: Value)
    requires Inv(s) && t < |s.queues| && s.queues[t].pc.StealWrite?
    ensures Balanced(s, Stealing(s, t), t, v)
  {
    var q := s.queues[t];
    assert PcOK(s, t) && RingOK(q, s.cap);
  }

  lemma StealLosesOk(s: State, t: nat)
    requires Inv(s) && t < |s.queues| && s.queues[t].pc.StealCas? && (s.queues[t].pc.o < |s.queues| ==> s.queues[s.queues[t].pc.o].head != s.queues[t].pc.oh)
    ensures RingOK(Stealing(s, t).queues[t], s.cap) && PcOK(Stealing(s, t), t)
  {
    var q := s.queues[t];
    assert PcOK(s, t) && RingOK(q, s.cap);
  }

  lemma StealLosesBalance(s: State, t: nat, v: Value)
    requires Inv(s) && t < |s.queues| && s.queues[t].pc.StealCas? && (s.queues[t].pc.o < |s.queues| ==> s.queues[s.queues[t].pc.o].head != s.queues[t].pc.oh)
    ensures Balanced(s, Stealing(s, t), t, v)
  {
    var q := s.queues[t];
    assert PcOK(s, t) && RingOK(q, s.cap);
  }

  lemma StealPublishOk(s: State, t: nat)
    requires Inv(s) && t < |s.queues| && s.queues[t].pc.StealPublish?
    ensures RingOK(Stealing(s, t).queues[t], s.cap) && PcOK(Stealing(s, t), t)
  {
    assert PcOK(s, t) && RingOK(s.queues[t], s.cap);
    PublishedLog(s, t);
    PublishedRing(s.queues[t], s.cap, s.queues[t].pc.batch, Stealing(s, t).queues[t]);
  }

  /** The batch was copied behind the tail, so it is there when the tail moves. */
  lemma PublishedRing(q: Queue, cap: nat, batch: seq<Value>, q': Queue)
    requires |q.buf| == cap > 0 && RingOK(q, cap) && batch != [] && Tail(q) + |batch| - 1 <= q.head + cap
    requires forall i :: 0 <= i < |batch| - 1 ==> q.buf[Slot(i + Tail(q), cap)] == batch[i]
    requires q' == q.(log := q.log + batch[..|batch| - 1], pc := Idle)
    ensures RingOK(q', cap)
  {
    forall p | q'.head <= p < Tail(q') ensures q'.buf[Slot(p, cap)] == q'.log[p] {
      if p >= Tail(q) {
        assert q.buf[Slot((p - Tail(q)) + Tail(q), cap)] == batch[p - Tail(q)];
      }
    }
  }

  lemma StealPublishBalance(s: State, t: nat, v: Value)
    requires Inv(s) && t < |s.queues| && s.queues[t].pc.StealPublish?
    ensures Balanced(s, Stealing(s, t), t, v)
  {
    PublishedLog(s, t);
    assert RingOK(s.queues[t], s.cap);
    PublishedHeld(s.queues[t], s.cap, v);
  }

  lemma PublishedHeld(q: Queue, cap: nat, v: Value)
    requires q.pc.StealPublish? && q.pc.batch != [] && q.head <= |q.log|
    ensures var n := |q.pc.batch| - 1;
      Held(q, cap, v) == Held(q.(log := q.log + q.pc.batch[..n], pc := Idle), cap, v) + One(q.pc.batch[n], v)
  {
    var batch := q.pc.batch;
    var n := |batch| - 1;
    var log' := q.log + batch[..n];
    CopiesSplit(batch, batch[..n], [batch[n]], v);
    CopiesSplit(log'[q.head..], q.log[q.head..], batch[..n], v);
  }

  lemma PublishedLog(s: State, t: nat)
    requires Inv(s) && t < |s.queues| && s.queues[t].pc.StealPublish?
    ensures var q, s' := s.queues[t], Stealing(s, t);
      var batch := q.pc.batch;
      && batch != [] && |s'.queues| == |s.queues| && s'.inserted == s.inserted && s'.overflowed == s.overflowed
      && s'.queues[t] == q.(log := q.log + batch[..|batch| - 1], pc := Idle)
      && s'.returned == s.returned + multiset{batch[|batch| - 1]}
  {
    assert PcOK(s, t);
    var q := s.queues[t];
    assert Stealing(s, t).queues[t].log == q.log + q.pc.batch[..|q.pc.batch| - 1];
  }

  /** What was copied is the batch. */
  lemma CopiedBatch(buf: seq<Value>, cap: nat, tail: nat, log: seq<Value>, oh: nat, n: nat)
    requires |buf| == cap > 0 && oh + n <= |log| && Matches(buf, cap, tail, log, oh, n)
    ensures seq(n, j requires 0 <= j => buf[Slot(j + tail, cap)]) == log[oh..oh + n]
  {
    var batch := seq(n, j requires 0 <= j => buf[Slot(j + tail, cap)]);
    forall j | 0 <= j < n ensures batch[j] == log[oh..oh + n][j] {
      assert buf[Slot((oh + j) - oh + tail, cap)] == log[oh + j];
    }
  }

  lemma StealWinsOk(s: State, t: nat)
    requires Inv(s) && t < |s.queues| && s.queues[t].pc.StealCas? && s.queues[t].pc.o < |s.queues|
    requires s.queues[s.queues[t].pc.o].head == s.queues[t].pc.oh
    ensures var q, s' := s.queues[t], Stealing(s, t);
      var o, oh, n := q.pc.o, q.pc.oh, q.pc.n;
      && o != t && oh + n <= Tail(s.queues[o])
      && s'.queues[t].pc == StealPublish(s.queues[o].log[oh..oh + n])
      && RingOK(s'.queues[t], s.cap) && RingOK(s'.queues[o], s.cap) && PcOK(s', t)
      && s'.queues == s.queues[t := s'.queues[t]][o := s'.queues[o]]
      && s'.queues[t] == q.(pc := s'.queues[t].pc) && s'.queues[o] == s.queues[o].(head := oh + n)
  {
    var q, s' := s.queues[t], Stealing(s, t);
    assert PcOK(s, t) && RingOK(q, s.cap) && RingOK(s.queues[q.pc.o], s.cap);
    CopiedBatch(q.buf, s.cap, Tail(q), s.queues[q.pc.o].log, q.pc.oh, q.pc.n);
  }

  lemma StealWinsQueues(s: State, t: nat)
    requires Inv(s) && t < |s.queues| && s.queues[t].pc.StealCas? && s.queues[t].pc.o < |s.queues|
    requires s.queues[s.queues[t].pc.o].head == s.queues[t].pc.oh
    ensures var o, n := s.queues[t].pc.o, s.queues[t].pc.n;
      && o != t && s.queues[t].head <= |s.queues[t].log| && s.queues[o].head + n <= |s.queues[o].log|
      && Stealing(s, t).queues == s.queues[t := s.queues[t].(pc := StealPublish(s.queues[o].log[s.queues[o].head..s.queues[o].head + n]))]
                                         [o := s.queues[o].(head := s.queues[o].head + n)]
  {
    StealWinsOk(s, t);
    assert RingOK(s.queues[t], s.cap);
  }

  /** Moving a batch from one queue to the hands of another thread changes no count. */
  lemma MoveBatch(qs: seq<Queue>, cap: nat, t: nat, o: nat, n: nat, v: Value)
    requires t < |qs| && o < |qs| && o != t && EmptyHanded(qs[t].pc) && qs[t].head <= |qs[t].log|
    requires qs[o].head + n <= |qs[o].log|
    ensures var batch := qs[o].log[qs[o].head..qs[o].head + n];
      TotalHeld(qs[t := qs[t].(pc := StealPublish(batch))][o := qs[o].(head := qs[o].head + n)], cap, v) == TotalHeld(qs, cap, v)
  {
    var batch := qs[o].log[qs[o].head..qs[o].head + n];
    var q', o' := qs[t].(pc := StealPublish(batch)), qs[o].(head := qs[o].head + n);
    TwoUpdates(qs, cap, t, q', o, o', v);
    BatchTaken(qs[t], batch, cap, v);
    BatchGone(qs[o], n, cap, v);
  }

  lemma TwoUpdates(qs: seq<Queue>, cap: nat, t: nat, q: Queue, o: nat, p: Queue, v: Value)
    requires t < |qs| && o < |qs| && o != t
    ensures TotalHeld(qs[t := q][o := p], cap, v) + Held(qs[t], cap, v) + Held(qs[o], cap, v)
      == TotalHeld(qs, cap, v) + Held(q, cap, v) + Held(p, cap, v)
  {
    TotalUpdate(qs, cap, t, q, v);
    TotalUpdate(qs[t := q], cap, o, p, v);
  }

  lemma BatchTaken(q: Queue, batch: seq<Value>, cap: nat, v: Value)
    requires EmptyHanded(q.pc) && q.head <= |q.log|
    ensures Held(q.(pc := StealPublish(batch)), cap, v) == Held(q, cap, v) + Copies(batch, v)
  {
  }

  lemma BatchGone(q: Queue, n: nat, cap: nat, v: Value)
    requires q.head + n <= |q.log|
    ensures Held(q, cap, v) == Held(q.(head := q.head + n), cap, v) + Copies(q.log[q.head..q.head + n], v)
  {
    assert q.log[q.head..] == q.log[q.head..q.head + n] + q.log[q.head + n..];
    CopiesSplit(q.log[q.head..], q.log[q.head..q.head + n], q.log[q.head + n..], v);
    HeadMoves(q, cap, q.head + n, v);
    HeadMoves(q, cap, q.head, v);
  }

  lemma HeadMoves(q: Queue, cap: nat, h: nat, v: Value)
    requires q.head <= h <= |q.log|
    ensures Held(q.(head := h), cap, v) == Copies(q.log[h..], v) + InFlight(q, cap, v)
  {
  }

  lemma StealWinsInv(s: State, t: nat)
    requires Inv(s) && t < |s.queues| && s.queues[t].pc.StealCas? && s.queues[t].pc.o < |s.queues|
    requires s.queues[s.queues[t].pc.o].head == s.queues[t].pc.oh
    ensures Inv(Stealing(s, t))
  {
    StealWinsOk(s, t);
    StealWinsRest(s, t);
    StealWinsConserved(s, t);
    var s' := Stealing(s, t);
    forall u | 0 <= u < |s'.queues| ensures RingOK(s'.queues[u], s'.cap) {
      assert RingOK(s.queues[u], s.cap);
    }
  }

  lemma StealWinsRest(s: State, t: nat)
    requires Inv(s) && t < |s.queues| && s.queues[t].pc.StealCas? && s.queues[t].pc.o < |s.queues|
    requires s.queues[s.queues[t].pc.o].head == s.queues[t].pc.oh
    ensures Shape(Stealing(s, t)) && forall u :: 0 <= u < |s.queues| && u != t ==> PcOK(Stealing(s, t), u)
  {
    StealWinsOk(s, t);
    var s' := Stealing(s, t);
    forall u | 0 <= u < |s'.queues| && u != t ensures PcOK(s', u) {
      Keeps(s, s', u);
    }
  }

  lemma StealWinsConserved(s: State, t: nat)
    requires Inv(s) && t < |s.queues| && s.queues[t].pc.StealCas? && s.queues[t].pc.o < |s.queues|
    requires s.queues[s.queues[t].pc.o].head == s.queues[t].pc.oh
    ensures Conserved(Stealing(s, t))
  {
    StealWinsQueues(s, t);
    MoveBatchAll(s.queues, Stealing(s, t).queues, s.cap, t, s.queues[t].pc.o, s.queues[t].pc.n);
    ConservedMoves(s, Stealing(s, t));
  }

  lemma MoveBatchAll(qs: seq<Queue>, qs': seq<Queue>, cap: nat, t: nat, o: nat, n: nat)
    requires t < |qs| && o < |qs| && o != t && EmptyHanded(qs[t].pc) && qs[t].head <= |qs[t].log|
    requires qs[o].head + n <= |qs[o].log|
    requires qs' == qs[t := qs[t].(pc := StealPublish(qs[o].log[qs[o].head..qs[o].head + n]))]
                      [o := qs[o].(head := qs[o].head + n)]
    ensures forall v :: TotalHeld(qs', cap, v) == TotalHeld(qs, cap, v)
  {
    forall v ensures TotalHeld(qs', cap, v) == TotalHeld(qs, cap, v) {
      MoveBatch(qs, cap, t, o, n, v);
    }
  }

  lemma ConservedMoves(s: State, s': State)
    requires Conserved(s) && SameHistory(s, s') && s'.cap == s.cap
    requires forall v :: TotalHeld(s'.queues, s.cap, v) == TotalHeld(s.queues, s.cap, v)
    ensures Conserved(s')
  {
  }

  /** The conclusion shared by the steps that change one queue. */
  ghost predicate OneQueue(s: State, t: nat, s': State)
    requires t < |s.queues|
  {
    && |s'.queues| == |s.queues| && s'.queues == s.queues[t := s'.queues[t]] && s'.cap == s.cap && Shape(s')
    && Evolves(s.queues[t], s'.queues[t])
  }

  lemma PushingShape(s: State, t: nat)
    requires Inv(s) && t < |s.queues|
    ensures OneQueue(s, t, Pushing(s, t))
  {
    assert PcOK(s, t) && RingOK(s.queues[t], s.cap);
  }

  lemma PoppingShape(s: State, t: nat)
    requires Inv(s) && t < |s.queues|
    ensures OneQueue(s, t, Popping(s, t))
  {
    assert PcOK(s, t) && RingOK(s.queues[t], s.cap);
  }

  lemma StealingShape(s: State, t: nat)
    requires Inv(s) && t < |s.queues| && (s.queues[t].pc.StealCas? ==>
      s.queues[t].pc.o < |s.queues| && s.queues[s.queues[t].pc.o].head != s.queues[t].pc.oh)
    ensures OneQueue(s, t, Stealing(s, t))
  {
    assert PcOK(s, t) && RingOK(s.queues[t], s.cap);
  }

  lemma StepInv(s: State, s': State)
    requires Inv(s) && Next(s, s')
    ensures Inv(s')
  {
    var t, a :| Enabled(s, t, a) && s' == Do(s, t, a);
    if !a.Advance? {
      StartInv(s, t, a);
    } else {
      AdvanceInv(s, t);
    }
  }

  lemma PushingInv(s: State, t: nat)
    requires Inv(s) && t < |s.queues|
    requires s.queues[t].pc.PushLoad? || s.queues[t].pc.PushBuf? || s.queues[t].pc.PushTail? || s.queues[t].pc.PushCas? || s.queues[t].pc.PushSpill?
    ensures Inv(Pushing(s, t))
  {
    var pc := s.queues[t].pc;
    if pc.PushLoad? {
      PushLoadOk(s, t);
      forall v ensures Balanced(s, Pushing(s, t), t, v) { PushLoadBalance(s, t, v); }
    } else if pc.PushBuf? {
      PushBufOk(s, t);
      forall v ensures Balanced(s, Pushing(s, t), t, v) { PushBufBalance(s, t, v); }
    } else if pc.PushTail? {
      PushTailOk(s, t);
      forall v ensures Balanced(s, Pushing(s, t), t, v) { PushTailBalance(s, t, v); }
    } else if pc.PushCas? {
      PushCasOk(s, t);
      forall v ensures Balanced(s, Pushing(s, t), t, v) { PushCasBalance(s, t, v); }
    } else if pc.PushSpill? {
      PushSpillOk(s, t);
      forall v ensures Balanced(s, Pushing(s, t), t, v) { PushSpillBalance(s, t, v); }
    }
    PushingShape(s, t);
    OwnStep(s, t, Pushing(s, t));
  }

  lemma PoppingInv(s: State, t: nat)
    requires Inv(s) && t < |s.queues| && (s.queues[t].pc.PopLoad? || s.queues[t].pc.PopRead? || s.queues[t].pc.PopCas?)
    ensures Inv(Popping(s, t))
  {
    PopOk(s, t);
    forall v ensures Balanced(s, Popping(s, t), t, v) { PopBalance(s, t, v); }
    PoppingShape(s, t);
    OwnStep(s, t, Popping(s, t));
  }

  lemma StealingInv(s: State, t: nat)
    requires Inv(s) && t < |s.queues|
    requires s.queues[t].pc.StealLoad? || s.queues[t].pc.StealHead? || s.queues[t].pc.StealTail? || s.queues[t].pc.StealRead?
      || s.queues[t].pc.StealWrite? || s.queues[t].pc.StealPublish?
      || (s.queues[t].pc.StealCas? && s.queues[t].pc.o < |s.queues| && s.queues[s.queues[t].pc.o].head != s.queues[t].pc.oh)
    ensures Inv(Stealing(s, t))
  {
    var pc := s.queues[t].pc;
    if pc.StealRead? {
      StealReadOk(s, t);
      forall v ensures Balanced(s, Stealing(s, t), t, v) { StealReadBalance(s, t, v); }
    } else if pc.StealWrite? {
      StealWriteOk(s, t);
      forall v ensures Balanced(s, Stealing(s, t), t, v) { StealWriteBalance(s, t, v); }
    } else if pc.StealCas? {
      StealLosesOk(s, t);
      forall v ensures Balanced(s, Stealing(s, t), t, v) { StealLosesBalance(s, t, v); }
    } else if pc.StealPublish? {
      StealPublishOk(s, t);
      forall v ensures Balanced(s, Stealing(s, t), t, v) { StealPublishBalance(s, t, v); }
    } else {
      StealLoadsOk(s, t);
      forall v ensures Balanced(s, Stealing(s, t), t, v) { StealLoadsBalance(s, t, v); }
    }
    StealingShape(s, t);
    OwnStep(s, t, Stealing(s, t));
  }

  lemma AdvanceInv(s: State, t: nat)
    requires Inv(s) && Enabled(s, t, Advance)
    ensures Inv(Do(s, t, Advance))
  {
    assert PcOK(s, t);
    var pc := s.queues[t].pc;
    if pc.PushLoad? || pc.PushBuf? || pc.PushTail? || pc.PushCas? || pc.PushSpill? {
      PushingInv(s, t);
    } else if pc.PopLoad? || pc.PopRead? || pc.PopCas? {
      PoppingInv(s, t);
    } else if pc.StealCas? && s.queues[pc.o].head == pc.oh {
      StealWinsInv(s, t);
    } else {
      StealingInv(s, t);
    }
  }

  // ----- whole runs

  ghost predicate StepAt(run: seq<State>, i: int)
    requires 0 <= i < |run| - 1
  {
    Next(run[i], run[i + 1])
  }

  ghost predicate IsRun(run: seq<State>) {
    run != [] && Init(run[0]) && forall i :: 0 <= i < |run| - 1 ==> StepAt(run, i)
  }

  lemma {:induction false} NothingHeldAtFirst(qs: seq<Queue>, cap: nat, v: Value)
    requires forall t :: 0 <= t < |qs| ==> qs[t].head == 0 && qs[t].log == [] && qs[t].pc == Idle
    ensures TotalHeld(qs, cap, v) == 0
  {
    if qs != [] {
      NothingHeldAtFirst(qs[1..], cap, v);
    }
  }

  lemma InitInv(s: State)
    requires Init(s)
    ensures Inv(s)
  {
    forall v ensures TotalHeld(s.queues, s.cap, v) == 0 {
      NothingHeldAtFirst(s.queues, s.cap, v);
    }
  }

  lemma {:induction false} RunInv(run: seq<State>, i: nat)
    requires IsRun(run) && i < |run|
    ensures Inv(run[i])
  {
    if i == 0 {
      InitInv(run[0]);
    } else {
      RunInv(run, i - 1);
      assert StepAt(run, i - 1);
      StepInv(run[i - 1], run[i]);
    }
  }

  /** Nothing is lost or delivered twice, and every ring stays within its capacity. */
  lemma EveryValueOnce(run: seq<State>, i: nat)
    requires IsRun(run) && i < |run|
    ensures Conserved(run[i])
    ensures forall t :: 0 <= t < |run[i].queues| ==> run[i].queues[t].head <= Tail(run[i].queues[t]) <= run[i].queues[t].head + run[i].cap
  {
    RunInv(run, i);
    forall t | 0 <= t < |run[i].queues| ensures run[i].queues[t].head <= Tail(run[i].queues[t]) <= run[i].queues[t].head + run[i].cap {
      assert RingOK(run[i].queues[t], run[i].cap);
    }
  }
}
