/**
 * PollQueue of pxcutils/pxc/utils/queue.h over BackoffQueue and SPSCChainQueue: the protocol by
 * which a reader that found nothing goes to sleep on an event descriptor and the writer's flush
 * wakes it, as a state machine with one step per atomic operation.  The chain below is reduced to
 * counters: an update of the reader is one load of how many items are flushed.  A put on a full
 * block flushes that block itself and wakes nobody.
 *
 * The theorems: once the writer has flushed what it put, a sleeping reader with items to read has
 * been signalled, in all runs, exactly if the writer never flushes with nothing to flush; and
 * between a put on a full block and the next flush the reader may sleep over whole blocks, and
 * that flush wakes it.
 */
module PollQueue {
  const B: nat := 1024   // buffer_size()

  datatype WriterPc =
    | Working
    | Filling              // in writer_put without room: about to load the reader's index
    | Sealing              // the block is full: about to flush it and to begin a new one
    | Placing              // about to put the item
    | Noted(noted: nat)    // old_wait_state is loaded; about to flush the queue
    | Stored(noted: nat)   // about to load wait_state_ again
    | Waking(noted: nat)   // about to release the descriptor

  datatype ReaderPc =
    | Awake
    | Polling      // in reader_wait of the queue
    | Announcing   // about to make wait_state_ odd
    | Rechecking   // about to update once more
    | Clearing     // about to acquire the descriptor
    | LastLook     // about to update for the last time
    | Settling     // about to make wait_state_ even
    | Asleep       // 0 was returned

  /**
   * put items, of which flushed are flushed; start of them were put before the writer's block, and
   * the writer knows that seen are freed.  The reader knows of some, has taken some and freed some.
   */
  datatype State = State(
    put: nat, flushed: nat, start: nat, seen: nat, known: nat, taken: nat, freed: nat,
    wait: nat, writerWait: nat, ready: bool, writer: WriterPc, reader: ReaderPc)

  const START := State(0, 0, 0, 0, 0, 0, 0, 0, 0, false, Working, Awake)

  /** writer_empty(): no free slot that the writer knows of. */
  predicate NoRoom(s: State) { s.put >= s.seen + B }

  function Max(a: nat, b: nat): nat { if a < b then b else a }

  datatype Action =
    | Put                  // writer_put
    | StartFlush           // writer_flush
    | WriterStep
    | Take
    | FreeTaken            // reader_flush
    | Call                 // reader_wait_nonblock
    | Poll(again: bool)    // one update; whether the backoff goes on
    | ReaderStep

  /** empty: whether the writer may flush when there is nothing to flush. */
  predicate Enabled(s: State, a: Action, empty: bool) {
    match a
    case Put => s.writer == Working
    case StartFlush => s.writer == Working && (s.flushed < s.put || empty)
    case WriterStep => s.writer != Working
    case Take => s.reader == Awake && s.taken < s.known
    case FreeTaken => s.reader == Awake
    case Call => s.reader == Awake || s.reader == Asleep
    case Poll(_) => s.reader == Polling
    case ReaderStep => s.reader != Awake && s.reader != Asleep && s.reader != Polling
  }

  function WriterStepped(s: State): State
    requires s.writer != Working
  {
    match s.writer
    case Filling =>
      var s' := s.(seen := Max(s.start, s.freed));
      s'.(writer := if NoRoom(s') then Sealing else Placing)
    case Sealing => s.(flushed := s.put, start := s.put, seen := s.put, writer := Placing)
    case Placing => s.(put := s.put + 1, writer := Working)
    case Noted(noted) => s.(flushed := s.put, writer := Stored(noted))
    case Stored(noted) => s.(writer := if s.wait % 2 == 1 && s.wait != s.writerWait then Waking(noted) else Working)
    case Waking(noted) => s.(ready := true, writerWait := noted, writer := Working)
  }

  function ReaderStepped(s: State): State
    requires s.reader != Awake && s.reader != Asleep && s.reader != Polling
  {
    match s.reader
    case Announcing => s.(wait := s.wait + 1, reader := Rechecking)
    case Rechecking => s.(known := s.flushed, reader := if s.taken < s.flushed then Settling else Clearing)
    case Clearing => s.(ready := false, reader := LastLook)
    case LastLook => s.(known := s.flushed, reader := if s.taken < s.flushed then Settling else Asleep)
    case Settling => s.(wait := s.wait + 1, reader := Awake)
  }

  function Do(s: State, a: Action): State
    requires Enabled(s, a, true)
  {
    match a
    case Put => if NoRoom(s) then s.(writer := Filling) else s.(put := s.put + 1)
    case StartFlush => s.(writer := Noted(s.wait))
    case WriterStep => WriterStepped(s)
    case Take => s.(taken := s.taken + 1)
    case FreeTaken => s.(freed := s.taken)
    case Call => s.(reader := if s.wait % 2 == 0 then Polling else Clearing)
    case Poll(again) =>
      s.(known := s.flushed, reader := if s.taken < s.flushed then Awake else if again then Polling else Announcing)
    case ReaderStep => ReaderStepped(s)
  }

  // ----- runs

  /** The lists of actions that are possible from the start, and the states they lead to. */
  predicate Possible(acts: seq<Action>, empty: bool)
    decreases |acts|, 0
  {
    acts == []
    || (Possible(acts[..|acts| - 1], empty) && Enabled(After(acts[..|acts| - 1], empty), acts[|acts| - 1], empty))
  }

  function After(acts: seq<Action>, empty: bool): State
    requires Possible(acts, empty)
    decreases |acts|, 1
  {
    if acts == [] then START else Do(After(acts[..|acts| - 1], empty), acts[|acts| - 1])
  }

  /** The reader sleeps over flushed items, unsignalled, and the writer is outside its calls. */
  predicate Unsignalled(s: State) { s.reader == Asleep && s.taken < s.flushed && s.writer == Working && !s.ready }

  /** And the writer has nothing that a flush would publish: nobody is going to wake the reader. */
  predicate Lost(s: State) { Unsignalled(s) && s.put == s.flushed }

  // ----- the invariant of runs without empty flushes

  predicate OddPc(pc: ReaderPc) {
    pc == Rechecking || pc == Clearing || pc == LastLook || pc == Settling || pc == Asleep
  }

  predicate Counts(s: State) {
    && s.freed <= s.taken <= s.known <= s.flushed <= s.put
    && s.start <= s.flushed && s.start <= s.seen <= Max(s.start, s.freed) && s.put <= s.seen + B
    && (s.writer.Placing? ==> s.put < s.seen + B)
    && (s.wait % 2 == 1 <==> OddPc(s.reader))
    && s.writerWait <= s.wait
  }

  /** A flush that noted the present wait state and has stored has left something to read. */
  predicate Noting(s: State) {
    match s.writer
    case Noted(noted) => noted <= s.wait && s.flushed < s.put
    case Stored(noted) => noted <= s.wait && (noted == s.wait && s.wait % 2 == 1 ==> s.taken < s.flushed)
    case Waking(noted) => noted <= s.wait && (noted == s.wait && s.wait % 2 == 1 ==> s.taken < s.flushed)
    case _ => true
  }

  /** Once woken in this wait state the reader has something to read, and the signal stays until it looks. */
  predicate Woken(s: State) {
    s.writerWait == s.wait && s.wait % 2 == 1 ==> s.taken < s.flushed && (s.reader != Asleep || s.ready)
  }

  /** Over what a reader sleeps unsignalled: a flush is under way, or whole blocks were flushed by puts. */
  predicate Sleeping(s: State) {
    s.reader == Asleep && s.taken < s.flushed && !s.ready ==>
      s.writer.Stored? || s.writer.Waking? || (s.flushed == s.start && (s.writer.Working? ==> s.flushed < s.put))
  }

  predicate Inv(s: State) { Counts(s) && Noting(s) && Woken(s) && Sleeping(s) }

  lemma DoInv(s: State, a: Action)
    requires Inv(s) && Enabled(s, a, false)
    ensures Inv(Do(s, a))
  {
    match a
    case WriterStep => WriterStepInv(s);
    case ReaderStep => ReaderStepInv(s);
    case _ =>
  }

  lemma WriterStepInv(s: State)
    requires Inv(s) && s.writer != Working
    ensures Inv(WriterStepped(s))
  {
  }

  lemma ReaderStepInv(s: State)
    requires Inv(s) && s.reader != Awake && s.reader != Asleep && s.reader != Polling
    ensures Inv(ReaderStepped(s))
  {
  }

  lemma {:induction false} RunInv(acts: seq<Action>)
    requires Possible(acts, false)
    ensures Inv(After(acts, false))
  {
    if acts != [] {
      RunInv(acts[..|acts| - 1]);
      DoInv(After(acts[..|acts| - 1], false), acts[|acts| - 1]);
    }
  }

  /** Without empty flushes, a reader is signalled as soon as everything put is flushed by writer_flush. */
  lemma NoLostWakeUp(acts: seq<Action>)
    requires Possible(acts, false)
    ensures !Lost(After(acts, false))
  {
    RunInv(acts);
  }

  /** In between: what it sleeps over are whole blocks, flushed by puts, with something still to flush. */
  lemma UnsignalledMeansBlocks(acts: seq<Action>)
    requires Possible(acts, false) && Unsignalled(After(acts, false))
    ensures var s := After(acts, false); 0 < s.flushed == s.start < s.put
  {
    RunInv(acts);
  }

  function Flush(s: State): State
    requires s.writer == Working
  {
    var noted := Do(s, StartFlush);
    var stored := WriterStepped(noted);
    var checked := WriterStepped(stored);
    if checked.writer == Working then checked else WriterStepped(checked)
  }

  /** And the next flush wakes it. */
  lemma NextFlushWakes(acts: seq<Action>)
    requires Possible(acts, false) && After(acts, false).reader == Asleep && After(acts, false).writer == Working
    requires After(acts, false).flushed < After(acts, false).put
    ensures var s' := Flush(After(acts, false)); s'.ready && s'.writer == Working && s'.flushed == s'.put
  {
    RunInv(acts);
  }

  // ----- runs that show it

  lemma OneMore(acts: seq<Action>, a: Action, empty: bool)
    requires Possible(acts, empty) && Enabled(After(acts, empty), a, empty)
    ensures Possible(acts + [a], empty) && After(acts + [a], empty) == Do(After(acts, empty), a)
  {
    assert (acts + [a])[..|acts|] == acts;
  }

  lemma Then(acts: seq<Action>, a: Action, empty: bool) returns (acts': seq<Action>)
    requires Possible(acts, empty) && Enabled(After(acts, empty), a, empty)
    ensures Possible(acts', empty) && After(acts', empty) == Do(After(acts, empty), a)
  {
    OneMore(acts, a, empty);
    acts' := acts + [a];
  }

  /** The reader announces that it will sleep. */
  lemma Announced(empty: bool) returns (acts: seq<Action>)
    ensures Possible(acts, empty) && After(acts, empty) == START.(wait := 1, reader := Clearing)
  {
    acts := [];
    acts := Then(acts, Call, empty);
    acts := Then(acts, Poll(false), empty);
    acts := Then(acts, ReaderStep, empty);
    acts := Then(acts, ReaderStep, empty);
  }

  lemma EmptyStored() returns (acts: seq<Action>)
    ensures Possible(acts, true) && After(acts, true) == START.(wait := 1, writer := Stored(1), reader := Clearing)
  {
    acts := Announced(true);
    acts := Then(acts, StartFlush, true);
    acts := Then(acts, WriterStep, true);
  }

  /** An empty flush spends the signal of this wait state. */
  lemma SignalSpent() returns (acts: seq<Action>)
    ensures Possible(acts, true) && After(acts, true) == START.(wait := 1, writerWait := 1, ready := true, reader := Clearing)
  {
    acts := EmptyStored();
    acts := Then(acts, WriterStep, true);
    acts := Then(acts, WriterStep, true);
  }

  /** The reader takes the signal, finds nothing and sleeps; the next flush does not wake it. */
  lemma EmptyFlushLoses() returns (acts: seq<Action>)
    ensures Possible(acts, true) && Lost(After(acts, true))
  {
    acts := SignalSpent();
    acts := Then(acts, ReaderStep, true);
    acts := Then(acts, ReaderStep, true);
    acts := Then(acts, Put, true);
    acts := Then(acts, StartFlush, true);
    acts := Then(acts, WriterStep, true);
    acts := Then(acts, WriterStep, true);
  }

  predicate LosesWakeUp(acts: seq<Action>, empty: bool) { Possible(acts, empty) && Lost(After(acts, empty)) }

  /** A wake-up can be lost exactly if the writer may flush with nothing to flush. */
  lemma LostExactlyWithEmptyFlush(empty: bool)
    ensures (exists acts :: LosesWakeUp(acts, empty)) <==> empty
  {
    if empty {
      var acts := EmptyFlushLoses();
      assert LosesWakeUp(acts, empty);
    } else {
      forall acts ensures !LosesWakeUp(acts, empty) {
        if Possible(acts, empty) { NoLostWakeUp(acts); }
      }
    }
  }

  function Sleeper(put: nat): State { START.(wait := 1, put := put, reader := Asleep) }

  lemma {:induction false} PutMany(n: nat) returns (acts: seq<Action>)
    requires n <= B
    ensures Possible(acts, false) && After(acts, false) == Sleeper(n)
  {
    if n == 0 {
      acts := Announced(false);
      acts := Then(acts, ReaderStep, false);
      acts := Then(acts, ReaderStep, false);
    } else {
      acts := PutMany(n - 1);
      acts := Then(acts, Put, false);
    }
  }

  /** 1025 puts without a flush: a whole block is there for a reader that sleeps and is not signalled. */
  lemma FullBlockIsUnsignalled() returns (acts: seq<Action>)
    ensures Possible(acts, false) && Unsignalled(After(acts, false)) && After(acts, false).flushed == B
  {
    acts := PutMany(B);
    acts := Then(acts, Put, false);
    acts := Then(acts, WriterStep, false);
    acts := Then(acts, WriterStep, false);
    acts := Then(acts, WriterStep, false);
  }
}
