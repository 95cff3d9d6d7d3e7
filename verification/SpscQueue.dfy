/**
 * SPSCBlockQueue and SPSCChainQueue of pxcutils/pxc/utils/queue.h, as a state machine with one
 * step per atomic operation of the writer and the reader.  Indices are 32-bit and wrap.
 *
 * The theorems: what the reader takes is a prefix of what the writer put, in order, whatever
 * wraps; the writer never overwrites an item that is still to be taken; and a reader_update
 * that answers 0 has met every item flushed before it.
 */
module SpscQueue {
  type Item = nat

  const B: nat := 1024          // buffer_size()
  const WRAP: nat := 0x1_0000_0000

  // ----- 32-bit indices

  function Wrap(n: int): (r: nat)
    ensures r < WRAP
  {
    n % WRAP
  }

  /** The mask keeps the slot, as the ring divides the range. */
  lemma SlotOf(n: nat)
    ensures Wrap(n) % B == n % B
  {
    var q := n / WRAP;
    assert n == WRAP * q + Wrap(n);
    assert n == B * (4194304 * q) + Wrap(n);
    assert Wrap(n) == B * (Wrap(n) / B) + Wrap(n) % B;
    SameRemainder(n, 4194304 * q + Wrap(n) / B, Wrap(n) % B);
  }

  lemma SameRemainder(n: nat, q: nat, r: nat)
    requires n == B * q + r && r < B
    ensures n % B == r
  {
  }

  lemma NextIndex(n: nat)
    ensures Wrap(Wrap(n) + 1) == Wrap(n + 1)
  {
  }

  /** writer_size(): the free slots. */
  lemma FreeSlots(r: nat, w: nat)
    requires r <= w <= r + B
    ensures Wrap(Wrap(r) + B - Wrap(w)) == r + B - w
  {
  }

  /** reader_size(): the unread items. */
  lemma Unread(r: nat, w: nat)
    requires r <= w <= r + B
    ensures Wrap(Wrap(w) - Wrap(r)) == w - r
  {
  }

  lemma DistinctSlots(i: nat, j: nat)
    requires i < j < i + B
    ensures i % B != j % B
  {
  }

  // ----- state

  /**
   * A block: data_, the published indices, and the two sides' copies.  The last six fields are
   * history: the items put, and the indices before they wrap.
   */
  datatype Block = Block(
    data: seq<Item>,
    writeI: nat, readI: nat, closed: bool,
    writerW: nat, writerR: nat, readerW: nat, readerR: nat,
    items: seq<Item>, flushed: nat, freed: nat, seenFreed: nat, seenFlushed: nat, taken: nat)

  function NewBlock(): Block { Block(seq(B, _ => 0), 0, 0, false, 0, 0, 0, 0, [], 0, 0, 0, 0, 0) }

  datatype WriterPc =
    | Writing
    | Full       // the block is full: about to flush it
    | Flushed    // about to link a new block and close this one

  /** met is history: all items flushed when the call began. */
  datatype ReaderPc =
    | Reading
    | Asking(met: nat)     // about to load the writer's index
    | Loaded(met: nat)     // it showed nothing new: about to load is_closed_
    | Again(met: nat)      // closed: about to load the index once more
    | Leaving(met: nat)    // about to go to the next block
    | Nothing(met: nat)    // returning 0

  /** log is history: the items taken.  Blocks that the reader left stay here. */
  datatype State = State(blocks: seq<Block>, head: nat, writer: WriterPc, reader: ReaderPc, log: seq<Item>)

  ghost predicate Init(s: State) {
    s == State([NewBlock()], 0, Writing, Reading, [])
  }

  // ----- steps

  datatype Action =
    | Put(item: Item)      // writer_put_unsafe, when there is room
    | FlushWriter
    | UpdateWriter         // load the reader's index
    | FlushFull
    | NewTail              // next_, is_closed_, tail_
    | Take                 // reader_get_unsafe, when there is an item
    | FlushReader
    | StartUpdate          // reader_update
    | Load                 // the next load of reader_update
    | Return

  function Last(s: State): Block
    requires s.blocks != []
  {
    s.blocks[|s.blocks| - 1]
  }

  function WriterSize(b: Block): nat { Wrap(b.writerR + B - b.writerW) }

  function ReaderSize(b: Block): nat { Wrap(b.readerW - b.readerR) }

  ghost predicate Enabled(s: State, a: Action) {
    && s.blocks != [] && s.head < |s.blocks|
    && match a
       case Put(_) => s.writer == Writing && WriterSize(Last(s)) != 0 && Last(s).writerW % B < |Last(s).data|
       case FlushWriter => s.writer == Writing
       case UpdateWriter => s.writer == Writing
       case FlushFull => s.writer == Full
       case NewTail => s.writer == Flushed
       case Take =>
         s.reader == Reading && ReaderSize(s.blocks[s.head]) != 0 && s.blocks[s.head].readerR % B < |s.blocks[s.head].data|
       case FlushReader => s.reader == Reading
       case StartUpdate => s.reader == Reading
       case Load => s.reader.Asking? || s.reader.Loaded? || s.reader.Again? || (s.reader.Leaving? && s.head + 1 < |s.blocks|)
       case Return => s.reader.Nothing?
  }

  function PutLast(s: State, b: Block): State
    requires s.blocks != []
  {
    s.(blocks := s.blocks[|s.blocks| - 1 := b])
  }

  function PutHead(s: State, b: Block): State
    requires s.head < |s.blocks|
  {
    s.(blocks := s.blocks[s.head := b])
  }

  function Putting(b: Block, item: Item): Block
    requires b.writerW % B < |b.data|
  {
    b.(data := b.data[b.writerW % B := item], writerW := Wrap(b.writerW + 1), items := b.items + [item])
  }

  function Flushing(b: Block): Block { b.(writeI := b.writerW, flushed := |b.items|) }

  function Refreshing(b: Block): Block { b.(writerR := b.readI, seenFreed := b.freed) }

  function Taking(b: Block): Block { b.(readerR := Wrap(b.readerR + 1), taken := b.taken + 1) }

  function Freeing(b: Block): Block { b.(readI := b.readerR, freed := b.taken) }

  function Looking(b: Block): Block { b.(readerW := b.writeI, seenFlushed := b.flushed) }

  /** All items flushed so far. */
  function Met(blocks: seq<Block>): nat {
    if blocks == [] then 0 else Met(blocks[..|blocks| - 1]) + blocks[|blocks| - 1].flushed
  }

  function Loading(s: State): State
    requires s.head < |s.blocks|
    requires s.reader.Asking? || s.reader.Loaded? || s.reader.Again? || (s.reader.Leaving? && s.head + 1 < |s.blocks|)
  {
    var b := s.blocks[s.head];
    match s.reader
    case Asking(met) => PutHead(s, Looking(b)).(reader := if ReaderSize(Looking(b)) != 0 then Reading else Loaded(met))
    case Loaded(met) => s.(reader := if b.closed then Again(met) else Nothing(met))
    case Again(met) => PutHead(s, Looking(b)).(reader := if ReaderSize(Looking(b)) != 0 then Reading else Leaving(met))
    case Leaving(met) =>
      var s' := s.(head := s.head + 1);
      var next := Looking(s.blocks[s.head + 1]);
      PutHead(s', next).(reader := if ReaderSize(next) != 0 then Reading else Nothing(met))
  }

  function Do(s: State, a: Action): State
    requires Enabled(s, a)
  {
    match a
    case Put(item) => PutLast(s, Putting(Last(s), item))
    case FlushWriter => PutLast(s, Flushing(Last(s)))
    case UpdateWriter =>
      PutLast(s, Refreshing(Last(s))).(writer := if WriterSize(Refreshing(Last(s))) != 0 then Writing else Full)
    case FlushFull => PutLast(s, Flushing(Last(s))).(writer := Flushed)
    case NewTail =>
      var s' := PutLast(s, Last(s).(closed := true));
      s'.(blocks := s'.blocks + [NewBlock()], writer := Writing)
    case Take =>
      var b := s.blocks[s.head];
      PutHead(s, Taking(b)).(log := s.log + [b.data[b.readerR % B]])
    case FlushReader => PutHead(s, Freeing(s.blocks[s.head]))
    case StartUpdate => s.(reader := Asking(Met(s.blocks)))
    case Load => Loading(s)
    case Return => s.(reader := Reading)
  }

  ghost predicate Next(s: State, s': State) {
    exists a :: Enabled(s, a) && s' == Do(s, a)
  }

  // ----- the invariant

  ghost predicate Holds(b: Block) {
    var all := |b.data| == B && forall k :: b.taken <= k < |b.items| ==> b.data[k % B] == b.items[k];
    all
  }

  predicate Ordered(b: Block) {
    b.seenFreed <= b.freed <= b.taken <= b.seenFlushed <= b.flushed <= |b.items| <= b.seenFreed + B
  }

  predicate Indexed(b: Block) {
    && b.writeI == Wrap(b.flushed) && b.readI == Wrap(b.freed)
    && b.writerW == Wrap(|b.items|) && b.writerR == Wrap(b.seenFreed)
    && b.readerW == Wrap(b.seenFlushed) && b.readerR == Wrap(b.taken)
  }

  ghost predicate BlockOK(b: Block) { Holds(b) && Ordered(b) && Indexed(b) }

  lemma Sizes(b: Block)
    requires BlockOK(b)
    ensures WriterSize(b) == b.seenFreed + B - |b.items| && ReaderSize(b) == b.seenFlushed - b.taken
  {
    FreeSlots(b.seenFreed, |b.items|);
    Unread(b.taken, b.seenFlushed);
  }

  function Flat(blocks: seq<Block>, n: nat): seq<Item>
    requires n <= |blocks|
  {
    if n == 0 then [] else Flat(blocks, n - 1) + blocks[n - 1].items
  }

  /** A block before the last one is closed, flushed and not empty; one before the head is taken, one after it is not. */
  ghost predicate BlockAt(blocks: seq<Block>, head: nat, j: nat)
    requires j < |blocks|
  {
    var b := blocks[j];
    && BlockOK(b)
    && b.closed == (j + 1 < |blocks|)
    && (j + 1 < |blocks| ==> b.flushed == |b.items| > 0)
    && (j < head ==> b.taken == |b.items|) && (j > head ==> b.taken == 0 && b.seenFlushed == 0)
  }

  ghost predicate BlocksOK(blocks: seq<Block>, head: nat) {
    head < |blocks| && forall j :: 0 <= j < |blocks| ==> BlockAt(blocks, head, j)
  }

  predicate WriterOK(b: Block, pc: WriterPc) {
    match pc
    case Writing => true
    case Full => |b.items| > 0
    case Flushed => b.flushed == |b.items| > 0
  }

  predicate ReaderOK(blocks: seq<Block>, head: nat, pc: ReaderPc)
    requires head < |blocks|
  {
    var b := blocks[head];
    match pc
    case Reading => true
    case Asking(met) => met <= Met(blocks)
    case Loaded(met) =>
      met <= Met(blocks) && b.taken == b.seenFlushed && (met <= |Flat(blocks, head)| + b.taken || head + 1 < |blocks|)
    case Again(met) => met <= Met(blocks) && head + 1 < |blocks|
    case Leaving(met) => met <= Met(blocks) && head + 1 < |blocks| && b.taken == |b.items|
    case Nothing(met) => met <= |Flat(blocks, head)| + b.taken
  }

  ghost predicate Inv(s: State) {
    && BlocksOK(s.blocks, s.head) && WriterOK(s.blocks[|s.blocks| - 1], s.writer) && ReaderOK(s.blocks, s.head, s.reader)
    && s.blocks[s.head].taken <= |s.blocks[s.head].items|
    && s.log == Flat(s.blocks, s.head) + s.blocks[s.head].items[..s.blocks[s.head].taken]
  }

  lemma InitInv(s: State)
    requires Init(s)
    ensures Inv(s)
  {
    assert BlockAt(s.blocks, 0, 0);
  }

  // ----- blocks

  lemma PuttingOK(b: Block, item: Item)
    requires BlockOK(b) && WriterSize(b) != 0
    ensures b.writerW % B < |b.data| && BlockOK(Putting(b, item))
  {
    Sizes(b);
    var n := |b.items|;
    SlotOf(n);
    NextIndex(n);
    var b' := Putting(b, item);
    forall k | b'.taken <= k < |b'.items| ensures b'.data[k % B] == b'.items[k] {
      if k < n { DistinctSlots(k, n); }
    }
  }

  lemma TakingOK(b: Block)
    requires BlockOK(b) && ReaderSize(b) != 0
    ensures b.readerR % B < |b.data| && b.taken < |b.items| && b.data[b.readerR % B] == b.items[b.taken] && BlockOK(Taking(b))
  {
    Sizes(b);
    SlotOf(b.taken);
    NextIndex(b.taken);
  }

  lemma CopyingOK(b: Block)
    requires BlockOK(b)
    ensures BlockOK(Flushing(b)) && BlockOK(Refreshing(b)) && BlockOK(Freeing(b)) && BlockOK(Looking(b))
  {
  }

  // ----- chains

  ghost predicate SameItems(a: seq<Block>, b: seq<Block>, n: nat) {
    n <= |a| && n <= |b| && forall j :: 0 <= j < n ==> b[j].items == a[j].items
  }

  lemma {:induction false} FlatSame(a: seq<Block>, b: seq<Block>, n: nat)
    requires SameItems(a, b, n)
    ensures Flat(b, n) == Flat(a, n)
  {
    if n > 0 { FlatSame(a, b, n - 1); }
  }

  ghost predicate FlushedGrows(a: seq<Block>, b: seq<Block>) {
    |a| <= |b| && forall j :: 0 <= j < |a| ==> a[j].flushed <= b[j].flushed
  }

  lemma {:induction false} MetGrows(a: seq<Block>, b: seq<Block>)
    requires FlushedGrows(a, b)
    ensures Met(a) <= Met(b)
    decreases |b|
  {
    if |a| < |b| {
      MetGrows(a, b[..|b| - 1]);
    } else if |a| > 0 {
      MetGrows(a[..|a| - 1], b[..|b| - 1]);
    }
  }

  /** All items flushed are those of the closed blocks and the flushed ones of the last. */
  lemma {:induction false} MetIs(blocks: seq<Block>, n: nat)
    requires n <= |blocks| && forall j :: 0 <= j < n ==> blocks[j].flushed == |blocks[j].items|
    ensures Met(blocks[..n]) == |Flat(blocks, n)|
    decreases n
  {
    if n > 0 {
      assert blocks[..n][..n - 1] == blocks[..n - 1];
      MetIs(blocks, n - 1);
    }
  }

  lemma MetAtLast(blocks: seq<Block>, head: nat)
    requires BlocksOK(blocks, head) && head + 1 == |blocks|
    ensures Met(blocks) == |Flat(blocks, head)| + blocks[head].flushed
  {
    forall j | 0 <= j < head ensures blocks[j].flushed == |blocks[j].items| { assert BlockAt(blocks, head, j); }
    MetIs(blocks, head);
    assert blocks[..head] == blocks[..|blocks| - 1];
  }

  /** The last block changes: its flushed or put items grow, and the reader's part stays. */
  lemma LastChanges(s: State, b: Block, pc: WriterPc)
    requires Inv(s) && BlockOK(b) && WriterOK(b, pc)
    requires Last(s).items <= b.items && Last(s).flushed <= b.flushed && b.taken == Last(s).taken
    requires b.seenFlushed == Last(s).seenFlushed && b.closed == Last(s).closed
    ensures Inv(PutLast(s, b).(writer := pc))
  {
    var s' := PutLast(s, b).(writer := pc);
    forall j | 0 <= j < |s'.blocks| ensures BlockAt(s'.blocks, s'.head, j) { assert BlockAt(s.blocks, s.head, j); }
    FlatSame(s.blocks, s'.blocks, s.head);
    forall j | 0 <= j < |s.blocks| ensures s.blocks[j].flushed <= s'.blocks[j].flushed {}
    MetGrows(s.blocks, s'.blocks);
    ReaderStays(s.blocks, s'.blocks, s.head, s.reader);
    var h, h' := s.blocks[s.head], s'.blocks[s.head];
    assert h'.items[..h'.taken] == h.items[..h.taken];
  }

  lemma ReaderStays(a: seq<Block>, b: seq<Block>, head: nat, pc: ReaderPc)
    requires head < |a| <= |b| && ReaderOK(a, head, pc) && Met(a) <= Met(b) && Flat(b, head) == Flat(a, head)
    requires b[head].taken == a[head].taken && b[head].seenFlushed == a[head].seenFlushed
    requires head + 1 < |a| ==> b[head].items == a[head].items
    ensures ReaderOK(b, head, pc)
  {
  }

  lemma NewTailInv(s: State)
    requires Inv(s) && Enabled(s, NewTail)
    ensures Inv(Do(s, NewTail))
  {
    var s' := Do(s, NewTail);
    var n := |s.blocks|;
    forall j | 0 <= j < |s'.blocks| ensures BlockAt(s'.blocks, s'.head, j) {
      if j < n { assert BlockAt(s.blocks, s.head, j); }
    }
    FlatSame(s.blocks, s'.blocks, s.head);
    forall j | 0 <= j < |s.blocks| ensures s.blocks[j].flushed <= s'.blocks[j].flushed {}
    MetGrows(s.blocks, s'.blocks);
    ReaderStays(s.blocks, s'.blocks, s.head, s.reader);
  }

  /** The head block changes, without its items: the reader takes, frees or looks. */
  lemma HeadChanges(s: State, b: Block, pc: ReaderPc, log: seq<Item>)
    requires Inv(s) && BlockOK(b)
    requires var a := s.blocks[s.head]; b.items == a.items && b.flushed == a.flushed && b.closed == a.closed
    requires s.blocks[s.head].taken <= b.taken && log == s.log + b.items[s.blocks[s.head].taken..b.taken]
    requires ReaderOK(s.blocks[s.head := b], s.head, pc)
    ensures Inv(PutHead(s, b).(reader := pc, log := log))
  {
    var s' := PutHead(s, b).(reader := pc, log := log);
    forall j | 0 <= j < |s'.blocks| ensures BlockAt(s'.blocks, s'.head, j) { assert BlockAt(s.blocks, s.head, j); }
    FlatSame(s.blocks, s'.blocks, s.head);
    var a := s.blocks[s.head];
    assert b.items[..b.taken] == a.items[..a.taken] + b.items[a.taken..b.taken];
    assert WriterOK(s'.blocks[|s'.blocks| - 1], s'.writer);
  }

  lemma SameFlushedMet(blocks: seq<Block>, head: nat, b: Block)
    requires head < |blocks| && b.flushed == blocks[head].flushed && b.items == blocks[head].items
    ensures Met(blocks[head := b]) >= Met(blocks) && Flat(blocks[head := b], head) == Flat(blocks, head)
  {
    var after := blocks[head := b];
    forall j | 0 <= j < |blocks| ensures blocks[j].flushed <= after[j].flushed {}
    MetGrows(blocks, after);
    FlatSame(blocks, after, head);
  }

  // ----- the reader's steps

  lemma TakeInv(s: State)
    requires Inv(s) && Enabled(s, Take)
    ensures Inv(Do(s, Take))
  {
    var b := s.blocks[s.head];
    assert BlockAt(s.blocks, s.head, s.head);
    TakingOK(b);
    assert Taking(b).items[b.taken..b.taken + 1] == [b.data[b.readerR % B]];
    HeadChanges(s, Taking(b), Reading, s.log + [b.data[b.readerR % B]]);
    assert Do(s, Take) == PutHead(s, Taking(b)).(reader := Reading, log := s.log + [b.data[b.readerR % B]]);
  }

  lemma FreeInv(s: State)
    requires Inv(s) && Enabled(s, FlushReader)
    ensures Inv(Do(s, FlushReader))
  {
    var b := s.blocks[s.head];
    assert BlockAt(s.blocks, s.head, s.head);
    CopyingOK(b);
    assert s.log == s.log + b.items[b.taken..b.taken];
    HeadChanges(s, Freeing(b), Reading, s.log);
    assert Do(s, FlushReader) == PutHead(s, Freeing(b)).(reader := Reading, log := s.log);
  }

  lemma LookInv(s: State, pc: ReaderPc)
    requires Inv(s) && ReaderOK(s.blocks[s.head := Looking(s.blocks[s.head])], s.head, pc)
    ensures Inv(PutHead(s, Looking(s.blocks[s.head])).(reader := pc))
  {
    var b := s.blocks[s.head];
    assert BlockAt(s.blocks, s.head, s.head);
    CopyingOK(b);
    assert s.log == s.log + b.items[b.taken..b.taken];
    HeadChanges(s, Looking(b), pc, s.log);
    assert PutHead(s, Looking(b)).(reader := pc) == PutHead(s, Looking(b)).(reader := pc, log := s.log);
  }

  lemma AskInv(s: State)
    requires Inv(s) && s.reader.Asking?
    ensures Inv(Loading(s))
  {
    var b := s.blocks[s.head];
    var b' := Looking(b);
    assert BlockAt(s.blocks, s.head, s.head);
    CopyingOK(b);
    Sizes(b');
    SameFlushedMet(s.blocks, s.head, b');
    if ReaderSize(b') == 0 && s.head + 1 == |s.blocks| { MetAtLast(s.blocks, s.head); }
    LookInv(s, if ReaderSize(b') != 0 then Reading else Loaded(s.reader.met));
  }

  lemma AgainInv(s: State)
    requires Inv(s) && s.reader.Again?
    ensures Inv(Loading(s))
  {
    var b := s.blocks[s.head];
    var b' := Looking(b);
    assert BlockAt(s.blocks, s.head, s.head);
    CopyingOK(b);
    Sizes(b');
    SameFlushedMet(s.blocks, s.head, b');
    LookInv(s, if ReaderSize(b') != 0 then Reading else Leaving(s.reader.met));
  }

  lemma LoadedInv(s: State)
    requires Inv(s) && s.reader.Loaded?
    ensures Inv(Loading(s))
  {
    assert BlockAt(s.blocks, s.head, s.head);
  }

  /** Going on to the next block. */
  lemma MoveInv(s: State)
    requires Inv(s) && s.reader.Leaving?
    ensures Inv(s.(head := s.head + 1, reader := Reading))
  {
    var s' := s.(head := s.head + 1, reader := Reading);
    forall j | 0 <= j < |s'.blocks| ensures BlockAt(s'.blocks, s'.head, j) { assert BlockAt(s.blocks, s.head, j); }
    var b := s.blocks[s.head];
    assert BlockAt(s.blocks, s.head, s.head + 1);
    assert b.items[..b.taken] == b.items;
    assert Flat(s.blocks, s.head + 1) == Flat(s.blocks, s.head) + b.items;
    assert s'.blocks[s'.head].items[..0] == [];
  }

  lemma LeaveInv(s: State)
    requires Inv(s) && s.reader.Leaving? && s.head + 1 < |s.blocks|
    ensures Inv(Loading(s))
  {
    MoveInv(s);
    var s1 := s.(head := s.head + 1, reader := Reading);
    var b := s1.blocks[s1.head];
    var b' := Looking(b);
    assert BlockAt(s1.blocks, s1.head, s1.head);
    CopyingOK(b);
    Sizes(b');
    SameFlushedMet(s1.blocks, s1.head, b');
    if ReaderSize(b') == 0 { MetAtLast(s1.blocks, s1.head); }
    var pc := if ReaderSize(b') != 0 then Reading else Nothing(s.reader.met);
    LookInv(s1, pc);
    LoadingLeaves(s, PutHead(s1, b').(reader := pc));
  }

  lemma LoadingLeaves(s: State, s': State)
    requires s.reader.Leaving? && s.head + 1 < |s.blocks|
    requires var b := Looking(s.blocks[s.head + 1]);
      s' == PutHead(s.(head := s.head + 1, reader := Reading), b)
            .(reader := if ReaderSize(b) != 0 then Reading else Nothing(s.reader.met))
    ensures Loading(s) == s'
  {
  }

  lemma WriterInv(s: State, a: Action)
    requires Inv(s) && Enabled(s, a) && (a.Put? || a.FlushWriter? || a.UpdateWriter? || a.FlushFull?)
    ensures Inv(Do(s, a))
  {
    var b := Last(s);
    assert BlockAt(s.blocks, s.head, |s.blocks| - 1);
    CopyingOK(b);
    match a
    case Put(item) =>
      PuttingOK(b, item);
      LastChanges(s, Putting(b, item), Writing);
    case FlushWriter => LastChanges(s, Flushing(b), Writing);
    case FlushFull => LastChanges(s, Flushing(b), Flushed);
    case UpdateWriter =>
      Sizes(Refreshing(b));
      LastChanges(s, Refreshing(b), if WriterSize(Refreshing(b)) != 0 then Writing else Full);
  }

  lemma DoInv(s: State, a: Action)
    requires Inv(s) && Enabled(s, a)
    ensures Inv(Do(s, a))
  {
    match a
    case Take => TakeInv(s);
    case FlushReader => FreeInv(s);
    case NewTail => NewTailInv(s);
    case StartUpdate => StartInv(s);
    case Return => ReturnInv(s);
    case Load =>
      if s.reader.Asking? { AskInv(s); }
      else if s.reader.Loaded? { LoadedInv(s); }
      else if s.reader.Again? { AgainInv(s); }
      else { LeaveInv(s); }
    case _ => WriterInv(s, a);
  }

  lemma StartInv(s: State)
    requires Inv(s)
    ensures Inv(s.(reader := Asking(Met(s.blocks))))
  {
  }

  lemma ReturnInv(s: State)
    requires Inv(s)
    ensures Inv(s.(reader := Reading))
  {
  }

  lemma StepInv(s: State, s': State)
    requires Inv(s) && Next(s, s')
    ensures Inv(s')
  {
    var a :| Enabled(s, a) && s' == Do(s, a);
    DoInv(s, a);
  }

  // ----- runs

  ghost predicate StepAt(run: seq<State>, i: nat)
    requires i + 1 < |run|
  {
    Next(run[i], run[i + 1])
  }

  ghost predicate IsRun(run: seq<State>) {
    run != [] && Init(run[0]) && forall i :: 0 <= i < |run| - 1 ==> StepAt(run, i)
  }

  lemma {:induction false} RunInv(run: seq<State>, i: nat)
    requires IsRun(run) && i < |run|
    ensures Inv(run[i])
  {
    if i == 0 {
      InitInv(run[0]);
    } else {
      RunInv(run, i - 1);
      assert StepAt(run, i - 1);
      StepInv(run[i - 1], run[i]);
    }
  }

  lemma {:induction false} FlatPrefix(blocks: seq<Block>, m: nat, n: nat)
    requires m <= n <= |blocks|
    ensures Flat(blocks, m) <= Flat(blocks, n)
  {
    if m < n { FlatPrefix(blocks, m, n - 1); }
  }

  /** First in, first out: what was taken is a prefix of what was put. */
  lemma TakenInOrder(run: seq<State>, k: nat)
    requires IsRun(run) && k < |run|
    ensures run[k].log <= Flat(run[k].blocks, |run[k].blocks|)
  {
    RunInv(run, k);
    var s := run[k];
    FlatPrefix(s.blocks, s.head + 1, |s.blocks|);
    assert Flat(s.blocks, s.head + 1) == Flat(s.blocks, s.head) + s.blocks[s.head].items;
  }

  /** A put writes into a slot that holds nothing that is still to be taken. */
  lemma NeverOverwrites(s: State, item: Item, k: nat)
    requires Inv(s) && Enabled(s, Put(item)) && Last(s).taken <= k < |Last(s).items|
    ensures Last(s).writerW % B != k % B
    ensures var data := Last(Do(s, Put(item))).data; |data| == B && data[k % B] == Last(s).items[k]
  {
    var b := Last(s);
    assert BlockAt(s.blocks, s.head, |s.blocks| - 1);
    Sizes(b);
    SlotOf(|b.items|);
    DistinctSlots(k, |b.items|);
  }

  /** A reader_update that answers 0 has met everything flushed before it, and all of it is taken. */
  lemma NothingMeansAllTaken(run: seq<State>, k: nat)
    requires IsRun(run) && k < |run| && run[k].reader.Nothing?
    ensures run[k].reader.met <= |run[k].log|
  {
    RunInv(run, k);
  }

  /** After a flush everything put is there for the reader. */
  lemma FlushPublishes(s: State)
    requires Inv(s) && Enabled(s, FlushWriter)
    ensures Met(Do(s, FlushWriter).blocks) == |Flat(s.blocks, |s.blocks|)|
  {
    var s' := Do(s, FlushWriter);
    forall j | 0 <= j < |s'.blocks| ensures s'.blocks[j].flushed == |s'.blocks[j].items| {
      assert BlockAt(s.blocks, s.head, j);
    }
    MetIs(s'.blocks, |s'.blocks|);
    FlatSame(s.blocks, s'.blocks, |s.blocks|);
    assert s'.blocks[..|s'.blocks|] == s'.blocks;
  }
}
