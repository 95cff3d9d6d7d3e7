/**
 * ObjectPool of pxcutils/pxc/utils/ObjectPool.h, as a state machine with one step per atomic
 * operation: one thread creates objects, any threads release them, and weak pointers are read
 * and then checked.
 *
 * The theorems: although the free list compares only addresses, a storage is never handed out
 * while it is in use or in the list, since a single thread pops; and a read through a weak
 * pointer that is_alive confirms afterwards saw the object the pointer was made for.
 */
module ObjectPool {
  datatype Link = Null | To(storage: nat)

  /** The content: cleared, or the object of a generation. */
  datatype Data = Blank | Object(generation: nat)

  datatype Storage = Storage(next: Link, generation: nat, data: Data)

  /** Whose a storage is: history that the invariant ties to the list and the threads. */
  datatype Place = Free | Fresh | Owned | Releasing(thread: nat)

  datatype CreatorPc =
    | Out
    | Looking                          // head_ was not null; about to load it
    | Got(storage: nat)                // about to load its next
    | Ready(storage: nat, next: Link)  // about to compare and exchange head_
    | Filling(storage: nat)            // init_data

  datatype ReleaserPc =
    | Idle
    | Bumping(storage: nat)            // about to raise the generation
    | Clearing(storage: nat)
    | Loading(storage: nat)            // about to load head_
    | Linking(storage: nat, saved: Link)
    | Swapping(storage: nat, saved: Link)  // about to compare and exchange head_

  datatype Answer = Unread | Read(data: Data) | Checked(data: Data, alive: bool)

  datatype Weak = Weak(storage: nat, generation: nat, answer: Answer)

  /** list is history: the storages from head_ on. */
  datatype State = State(
    storages: seq<Storage>, head: Link, places: seq<Place>, list: seq<nat>,
    creator: CreatorPc, releasers: seq<ReleaserPc>, weaks: seq<Weak>)

  ghost predicate Init(s: State) {
    && s.storages == [] && s.head == Null && s.places == [] && s.list == [] && s.creator == Out && s.weaks == []
    && forall t :: 0 <= t < |s.releasers| ==> s.releasers[t] == Idle
  }

  // ----- steps

  datatype Action =
    | Create
    | CreatorStep(fails: bool)         // the weak exchange may fail without reason
    | Release(t: nat, storage: nat)
    | ReleaserStep(t: nat, fails: bool)
    | MakeWeak(storage: nat)
    | ReadWeak(w: nat)
    | CheckWeak(w: nat)

  predicate Enabled(s: State, a: Action) {
    match a
    case Create => s.creator == Out
    case CreatorStep(_) =>
      && s.creator != Out && (s.creator.Looking? ==> s.head.To?)
      && (s.creator.Got? || s.creator.Filling? ==> s.creator.storage < |s.storages|)
      && (s.creator.Ready? ==> s.creator.storage < |s.places|) && (s.creator.Filling? ==> s.creator.storage < |s.places|)
    case Release(t, i) => t < |s.releasers| && s.releasers[t] == Idle && i < |s.places| && s.places[i] == Owned
    case ReleaserStep(t, _) =>
      t < |s.releasers| && s.releasers[t] != Idle && s.releasers[t].storage < |s.storages| && s.releasers[t].storage < |s.places|
    case MakeWeak(i) => i < |s.places| && i < |s.storages| && s.places[i] == Owned
    case ReadWeak(w) => w < |s.weaks| && s.weaks[w].storage < |s.storages|
    case CheckWeak(w) => w < |s.weaks| && s.weaks[w].storage < |s.storages| && s.weaks[w].answer.Read?
  }

  /** get_storage */
  function Creating(s: State): State {
    if s.head == Null then
      s.(storages := s.storages + [Storage(Null, 1, Blank)], places := s.places + [Fresh], creator := Filling(|s.storages|))
    else s.(creator := Looking)
  }

  function CreatorStepped(s: State, fails: bool): State
    requires Enabled(s, CreatorStep(fails))
  {
    match s.creator
    case Looking => s.(creator := Got(s.head.storage))
    case Got(i) => s.(creator := Ready(i, s.storages[i].next))
    case Ready(i, next) =>
      if s.head == To(i) && !fails then
        s.(head := next, places := s.places[i := Fresh], list := if s.list == [] then [] else s.list[1..], creator := Filling(i))
      else s.(creator := Looking)
    case Filling(i) =>
      var o := s.storages[i];
      s.(storages := s.storages[i := o.(data := Object(o.generation))], places := s.places[i := Owned], creator := Out)
  }

  function ReleaserStepped(s: State, t: nat, fails: bool): State
    requires Enabled(s, ReleaserStep(t, fails))
  {
    var i := s.releasers[t].storage;
    var o := s.storages[i];
    match s.releasers[t]
    case Bumping(_) => Put(s, t, i, o.(generation := o.generation + 1), Clearing(i))
    case Clearing(_) => Put(s, t, i, o.(data := Blank), Loading(i))
    case Loading(_) => Put(s, t, i, o, Linking(i, s.head))
    case Linking(_, saved) => Put(s, t, i, o.(next := saved), Swapping(i, saved))
    case Swapping(_, saved) =>
      if s.head == saved && !fails then
        s.(head := To(i), places := s.places[i := Free], list := [i] + s.list, releasers := s.releasers[t := Idle])
      else Put(s, t, i, o, Loading(i))
  }

  function Put(s: State, t: nat, i: nat, o: Storage, pc: ReleaserPc): State
    requires t < |s.releasers| && i < |s.storages|
  {
    s.(storages := s.storages[i := o], releasers := s.releasers[t := pc])
  }

  function Do(s: State, a: Action): State
    requires Enabled(s, a)
  {
    match a
    case Create => Creating(s)
    case CreatorStep(fails) => CreatorStepped(s, fails)
    case Release(t, i) => s.(places := s.places[i := Releasing(t)], releasers := s.releasers[t := Bumping(i)])
    case ReleaserStep(t, fails) => ReleaserStepped(s, t, fails)
    case MakeWeak(i) => s.(weaks := s.weaks + [Weak(i, s.storages[i].generation, Unread)])
    case ReadWeak(w) => s.(weaks := s.weaks[w := s.weaks[w].(answer := Read(s.storages[s.weaks[w].storage].data))])
    case CheckWeak(w) =>
      var k := s.weaks[w];
      s.(weaks := s.weaks[w := k.(answer := Checked(k.answer.data, k.generation == s.storages[k.storage].generation))])
  }

  ghost predicate Next(s: State, s': State) {
    exists a :: Enabled(s, a) && s' == Do(s, a)
  }

  // ----- the invariant

  /** The k-th storage of the list is free and linked to the one after it. */
  predicate ListedAt(storages: seq<Storage>, places: seq<Place>, list: seq<nat>, k: nat)
    requires k < |list|
  {
    && list[k] < |storages| && list[k] < |places| && places[list[k]] == Free
    && storages[list[k]].next == LinkTo(list, k + 1)
  }

  function LinkTo(list: seq<nat>, k: nat): Link { if k < |list| then To(list[k]) else Null }

  ghost predicate ListOK(s: State) {
    && (forall k :: 0 <= k < |s.list| ==> ListedAt(s.storages, s.places, s.list, k))
    && (forall j, k :: 0 <= j < k < |s.list| ==> s.list[j] != s.list[k])
    && s.head == LinkTo(s.list, 0)
  }

  predicate CreatorOK(s: State) {
    match s.creator
    case Out => true
    case Looking => s.list != []
    case Got(i) => i in s.list
    case Ready(i, next) => i in s.list && i < |s.storages| && s.storages[i].next == next
    case Filling(i) => i < |s.places| && s.places[i] == Fresh
  }

  predicate ReleaserAt(s: State, t: nat)
    requires t < |s.releasers|
  {
    s.releasers[t] != Idle ==>
      var i := s.releasers[t].storage;
      && i < |s.places| && i < |s.storages| && s.places[i] == Releasing(t)
      && (s.releasers[t].Swapping? ==> s.storages[i].next == s.releasers[t].saved)
  }

  /** An owned storage holds its object; a free one is in the list. */
  predicate PlaceAt(s: State, i: nat)
    requires i < |s.places|
  {
    && i < |s.storages|
    && (s.places[i] == Owned || Bumps(s, i) ==> s.storages[i].data == Object(s.storages[i].generation))
    && (s.places[i] == Free ==> i in s.list)
    && (s.places[i] == Fresh ==> s.creator == Filling(i))
    && (s.places[i].Releasing? ==> s.places[i].thread < |s.releasers| && s.releasers[s.places[i].thread] != Idle
                                   && s.releasers[s.places[i].thread].storage == i)
  }

  /** Its release has begun, and the generation is still the object's. */
  predicate Bumps(s: State, i: nat) {
    && i < |s.places| && s.places[i].Releasing? && s.places[i].thread < |s.releasers|
    && s.releasers[s.places[i].thread] == Bumping(i)
  }

  /** While the generation is the pointer's, the object is there; what was read meanwhile is the object. */
  predicate WeakAt(s: State, w: nat)
    requires w < |s.weaks|
  {
    var k := s.weaks[w];
    && k.storage < |s.storages| && k.storage < |s.places|
    && k.generation <= s.storages[k.storage].generation
    && (k.generation == s.storages[k.storage].generation ==> s.places[k.storage] == Owned || Bumps(s, k.storage))
    && (k.answer.Read? && k.generation == s.storages[k.storage].generation ==> k.answer.data == Object(k.generation))
    && (k.answer.Checked? && k.answer.alive ==> k.answer.data == Object(k.generation))
  }

  ghost predicate Inv(s: State) {
    && |s.places| == |s.storages| && ListOK(s) && CreatorOK(s)
    && (forall t :: 0 <= t < |s.releasers| ==> ReleaserAt(s, t))
    && (forall i :: 0 <= i < |s.places| ==> PlaceAt(s, i))
    && forall w :: 0 <= w < |s.weaks| ==> WeakAt(s, w)
  }

  lemma InitInv(s: State)
    requires Init(s)
    ensures Inv(s)
  {
  }

  // ----- the steps keep it

  lemma CreateInv(s: State)
    requires Inv(s) && s.creator == Out
    ensures Inv(Creating(s))
  {
    var s' := Creating(s);
    forall k | 0 <= k < |s'.list| ensures ListedAt(s'.storages, s'.places, s'.list, k) {
      assert ListedAt(s.storages, s.places, s.list, k);
    }
    forall t | 0 <= t < |s'.releasers| ensures ReleaserAt(s', t) { assert ReleaserAt(s, t); }
    forall i | 0 <= i < |s'.places| ensures PlaceAt(s', i) { if i < |s.places| { assert PlaceAt(s, i); } }
    forall w | 0 <= w < |s'.weaks| ensures WeakAt(s', w) { assert WeakAt(s, w); }
  }

  /** Only the creator takes from the list: what it holds is still there, so the exchange unlinks it. */
  lemma TakeInv(s: State)
    requires Inv(s) && s.creator.Ready? && s.head == To(s.creator.storage) && Enabled(s, CreatorStep(false))
    ensures Inv(CreatorStepped(s, false))
  {
    var s' := CreatorStepped(s, false);
    var i := s.creator.storage;
    assert s.list != [] && s.list[0] == i && ListedAt(s.storages, s.places, s.list, 0);
    forall k | 0 <= k < |s'.list| ensures ListedAt(s'.storages, s'.places, s'.list, k) {
      assert ListedAt(s.storages, s.places, s.list, k + 1);
    }
    forall t | 0 <= t < |s'.releasers| ensures ReleaserAt(s', t) { assert ReleaserAt(s, t); }
    forall j | 0 <= j < |s'.places| ensures PlaceAt(s', j) { assert PlaceAt(s, j); }
    forall w | 0 <= w < |s'.weaks| ensures WeakAt(s', w) { assert WeakAt(s, w); }
  }

  lemma FillInv(s: State)
    requires Inv(s) && s.creator.Filling? && Enabled(s, CreatorStep(false))
    ensures Inv(CreatorStepped(s, false))
  {
    var s' := CreatorStepped(s, false);
    var i := s.creator.storage;
    forall k | 0 <= k < |s'.list| ensures ListedAt(s'.storages, s'.places, s'.list, k) {
      assert ListedAt(s.storages, s.places, s.list, k);
    }
    forall t | 0 <= t < |s'.releasers| ensures ReleaserAt(s', t) { assert ReleaserAt(s, t); }
    forall j | 0 <= j < |s'.places| ensures PlaceAt(s', j) { assert PlaceAt(s, j); }
    forall w | 0 <= w < |s'.weaks| ensures WeakAt(s', w) { assert WeakAt(s, w); }
  }

  /** A step of the creator that only loads. */
  lemma CreatorLoads(s: State, pc: CreatorPc)
    requires Inv(s) && !s.creator.Filling? && !pc.Filling? && CreatorOK(s.(creator := pc))
    ensures Inv(s.(creator := pc))
  {
    var s' := s.(creator := pc);
    forall t | 0 <= t < |s'.releasers| ensures ReleaserAt(s', t) { assert ReleaserAt(s, t); }
    forall j | 0 <= j < |s'.places| ensures PlaceAt(s', j) { assert PlaceAt(s, j); }
    forall w | 0 <= w < |s'.weaks| ensures WeakAt(s', w) { assert WeakAt(s, w); }
  }

  lemma CreatorInv(s: State, fails: bool)
    requires Inv(s) && Enabled(s, CreatorStep(fails))
    ensures Inv(CreatorStepped(s, fails))
  {
    match s.creator
    case Looking => CreatorLoads(s, Got(s.head.storage));
    case Got(i) => CreatorLoads(s, Ready(i, s.storages[i].next));
    case Ready(i, next) => if s.head == To(i) && !fails { TakeInv(s); } else { CreatorLoads(s, Looking); }
    case Filling(i) => FillInv(s);
  }

  lemma ReleaseInv(s: State, t: nat, i: nat)
    requires Inv(s) && Enabled(s, Release(t, i))
    ensures Inv(Do(s, Release(t, i)))
  {
    var s' := Do(s, Release(t, i));
    assert PlaceAt(s, i);
    forall k | 0 <= k < |s'.list| ensures ListedAt(s'.storages, s'.places, s'.list, k) {
      assert ListedAt(s.storages, s.places, s.list, k);
    }
    forall u | 0 <= u < |s'.releasers| ensures ReleaserAt(s', u) { assert ReleaserAt(s, u); }
    forall j | 0 <= j < |s'.places| ensures PlaceAt(s', j) { assert PlaceAt(s, j); }
    forall w | 0 <= w < |s'.weaks| ensures WeakAt(s', w) { assert WeakAt(s, w); }
  }

  /** A step of a release that changes only its own storage. */
  lemma PutInv(s: State, t: nat, o: Storage, pc: ReleaserPc)
    requires Inv(s) && t < |s.releasers| && s.releasers[t] != Idle && s.releasers[t].storage < |s.storages|
    requires pc != Idle && pc.storage == s.releasers[t].storage && !pc.Bumping?
    requires pc.Swapping? ==> o.next == pc.saved
    requires var was := s.storages[pc.storage].generation;
      if s.releasers[t].Bumping? then o.generation == was + 1 else o.generation == was
    ensures Inv(Put(s, t, pc.storage, o, pc))
  {
    var i := pc.storage;
    var s' := Put(s, t, i, o, pc);
    assert ReleaserAt(s, t);
    forall k | 0 <= k < |s'.list| ensures ListedAt(s'.storages, s'.places, s'.list, k) {
      assert ListedAt(s.storages, s.places, s.list, k);
    }
    assert CreatorOK(s') by {
      if s.creator.Ready? {
        var k :| 0 <= k < |s.list| && s.list[k] == s.creator.storage;
        assert ListedAt(s.storages, s.places, s.list, k);
      }
    }
    forall u | 0 <= u < |s'.releasers| ensures ReleaserAt(s', u) { assert ReleaserAt(s, u); }
    forall j | 0 <= j < |s'.places| ensures PlaceAt(s', j) { assert PlaceAt(s, j); }
    forall w | 0 <= w < |s'.weaks| ensures WeakAt(s', w) { assert WeakAt(s, w); }
  }

  /** The storage goes to the front of the list. */
  lemma PushInv(s: State, t: nat)
    requires Inv(s) && Enabled(s, ReleaserStep(t, false)) && s.releasers[t].Swapping? && s.head == s.releasers[t].saved
    ensures Inv(ReleaserStepped(s, t, false))
  {
    var s' := ReleaserStepped(s, t, false);
    var i := s.releasers[t].storage;
    assert ReleaserAt(s, t);
    forall k | 0 <= k < |s.list| ensures s.list[k] != i { assert ListedAt(s.storages, s.places, s.list, k); }
    forall k | 0 <= k < |s'.list| ensures ListedAt(s'.storages, s'.places, s'.list, k) {
      if k > 0 { assert ListedAt(s.storages, s.places, s.list, k - 1); }
    }
    forall u | 0 <= u < |s'.releasers| ensures ReleaserAt(s', u) { assert ReleaserAt(s, u); }
    forall j | 0 <= j < |s'.places| ensures PlaceAt(s', j) { assert PlaceAt(s, j); }
    forall w | 0 <= w < |s'.weaks| ensures WeakAt(s', w) { assert WeakAt(s, w); }
  }

  lemma ReleaserInv(s: State, t: nat, fails: bool)
    requires Inv(s) && Enabled(s, ReleaserStep(t, fails))
    ensures Inv(ReleaserStepped(s, t, fails))
  {
    var i := s.releasers[t].storage;
    var o := s.storages[i];
    match s.releasers[t]
    case Bumping(_) => PutInv(s, t, o.(generation := o.generation + 1), Clearing(i));
    case Clearing(_) => PutInv(s, t, o.(data := Blank), Loading(i));
    case Loading(_) => PutInv(s, t, o, Linking(i, s.head));
    case Linking(_, saved) => PutInv(s, t, o.(next := saved), Swapping(i, saved));
    case Swapping(_, saved) => if s.head == saved && !fails { PushInv(s, t); } else { PutInv(s, t, o, Loading(i)); }
  }

  /** Weak pointers change nothing else. */
  lemma WeaksInv(s: State, weaks: seq<Weak>)
    requires Inv(s) && forall w :: 0 <= w < |weaks| ==> WeakAt(s.(weaks := weaks), w)
    ensures Inv(s.(weaks := weaks))
  {
    var s' := s.(weaks := weaks);
    forall t | 0 <= t < |s'.releasers| ensures ReleaserAt(s', t) { assert ReleaserAt(s, t); }
    forall j | 0 <= j < |s'.places| ensures PlaceAt(s', j) { assert PlaceAt(s, j); }
  }

  lemma WeakInv(s: State, a: Action)
    requires Inv(s) && Enabled(s, a) && (a.MakeWeak? || a.ReadWeak? || a.CheckWeak?)
    ensures Inv(Do(s, a))
  {
    var s' := Do(s, a);
    forall w | 0 <= w < |s'.weaks| ensures WeakAt(s', w) {
      if w < |s.weaks| {
        assert WeakAt(s, w);
        assert PlaceAt(s, s.weaks[w].storage);
      }
    }
    WeaksInv(s, s'.weaks);
  }

  lemma DoInv(s: State, a: Action)
    requires Inv(s) && Enabled(s, a)
    ensures Inv(Do(s, a))
  {
    match a
    case Create => CreateInv(s);
    case CreatorStep(fails) => CreatorInv(s, fails);
    case Release(t, i) => ReleaseInv(s, t, i);
    case ReleaserStep(t, fails) => ReleaserInv(s, t, fails);
    case _ => WeakInv(s, a);
  }

  lemma StepInv(s: State, s': State)
    requires Inv(s) && Next(s, s')
    ensures Inv(s')
  {
    var a :| Enabled(s, a) && s' == Do(s, a);
    DoInv(s, a);
  }

  // ----- runs

  ghost predicate StepAt(run: seq<State>, i: nat)
    requires i + 1 < |run|
  {
    Next(run[i], run[i + 1])
  }

  ghost predicate IsRun(run: seq<State>) {
    run != [] && Init(run[0]) && forall i :: 0 <= i < |run| - 1 ==> StepAt(run, i)
  }

  lemma {:induction false} RunInv(run: seq<State>, i: nat)
    requires IsRun(run) && i < |run|
    ensures Inv(run[i])
  {
    if i == 0 {
      InitInv(run[0]);
    } else {
      RunInv(run, i - 1);
      assert StepAt(run, i - 1);
      StepInv(run[i - 1], run[i]);
    }
  }

  /** The creator's loop never meets an empty list, and what it compares against is linked as it was read. */
  lemma CreatorNeverStuck(run: seq<State>, k: nat)
    requires IsRun(run) && k < |run| && run[k].creator != Out
    ensures Enabled(run[k], CreatorStep(false))
    ensures run[k].creator.Ready? ==> var i := run[k].creator.storage; i < |run[k].storages| && run[k].storages[i].next == run[k].creator.next
  {
    RunInv(run, k);
    var s := run[k];
    if s.creator.Got? || s.creator.Ready? {
      var j :| 0 <= j < |s.list| && s.list[j] == s.creator.storage;
      assert ListedAt(s.storages, s.places, s.list, j);
    }
  }

  /** A storage is in the list exactly if it is free, and then nobody owns, fills or releases it. */
  lemma ListedIsUnused(run: seq<State>, k: nat, i: nat)
    requires IsRun(run) && k < |run| && i < |run[k].storages|
    ensures i < |run[k].places| && (i in run[k].list <==> run[k].places[i] == Free)
    ensures i in run[k].list ==> run[k].creator != Filling(i)
    ensures i in run[k].list ==>
      forall t :: 0 <= t < |run[k].releasers| ==> run[k].releasers[t] == Idle || run[k].releasers[t].storage != i
  {
    RunInv(run, k);
    var s := run[k];
    assert PlaceAt(s, i);
    if i in s.list {
      var j :| 0 <= j < |s.list| && s.list[j] == i;
      assert ListedAt(s.storages, s.places, s.list, j);
      forall t | 0 <= t < |s.releasers| ensures s.releasers[t] == Idle || s.releasers[t].storage != i {
        assert ReleaserAt(s, t);
      }
    }
  }

  /** What the exchange takes from the list was free, and is the creator's alone from then on. */
  lemma TakenWasFree(s: State, fails: bool)
    requires Inv(s) && s.creator.Ready? && Enabled(s, CreatorStep(fails)) && CreatorStepped(s, fails).creator.Filling?
    ensures var i := s.creator.storage;
      s.places[i] == Free && s.list != [] && s.list[0] == i && CreatorStepped(s, fails).list == s.list[1..]
  {
    assert ListedAt(s.storages, s.places, s.list, 0);
  }

  /** A read that is_alive confirms saw the object the weak pointer was made for. */
  lemma AliveMeansValid(run: seq<State>, k: nat, w: nat)
    requires IsRun(run) && k < |run| && w < |run[k].weaks| && run[k].weaks[w].answer.Checked? && run[k].weaks[w].answer.alive
    ensures run[k].weaks[w].answer.data == Object(run[k].weaks[w].generation)
  {
    RunInv(run, k);
    assert WeakAt(run[k], w);
  }

  /** While nobody releases its object, a weak pointer is alive. */
  lemma OwnedIsAlive(s: State, a: Action, w: nat)
    requires Inv(s) && Enabled(s, a) && w < |s.weaks| && s.weaks[w].storage < |s.storages|
    requires s.weaks[w].generation == s.storages[s.weaks[w].storage].generation
    ensures var i := s.weaks[w].storage;
      && i < |Do(s, a).storages|
      && (Do(s, a).storages[i].generation != s.weaks[w].generation
          ==> a.ReleaserStep? && s.releasers[a.t] == Bumping(i))
  {
  }

  // ----- reuse

  /** get_storage makes a new storage exactly if none of the present ones is free. */
  lemma NewOnlyIfNoneFree(run: seq<State>, k: nat)
    requires IsRun(run) && k < |run| && run[k].creator == Out
    ensures var s := run[k];
      |Do(s, Create).storages| > |s.storages| <==> forall i :: 0 <= i < |s.places| ==> s.places[i] != Free
  {
    RunInv(run, k);
    var s := run[k];
    if s.list != [] {
      assert ListedAt(s.storages, s.places, s.list, 0);
    } else {
      forall i | 0 <= i < |s.places| ensures s.places[i] != Free { assert PlaceAt(s, i); }
    }
  }

  predicate Cleared(pc: ReleaserPc) { pc.Loading? || pc.Linking? || pc.Swapping? }

  /** The data of the i-th storage is cleared if it waits to be used. */
  predicate BlankAt(s: State, i: nat)
    requires i < |s.storages|
  {
    i < |s.places| &&
    (s.places[i] == Free || s.places[i] == Fresh
     || (s.places[i].Releasing? && s.places[i].thread < |s.releasers| && Cleared(s.releasers[s.places[i].thread]))
     ==> s.storages[i].data == Blank)
  }

  ghost predicate BlankOK(s: State) { forall i :: 0 <= i < |s.storages| ==> BlankAt(s, i) }

  lemma BlankCreator(s: State, a: Action, i: nat)
    requires Inv(s) && BlankOK(s) && Enabled(s, a) && (a.Create? || a.CreatorStep?) && i < |Do(s, a).storages|
    ensures BlankAt(Do(s, a), i)
  {
    if i < |s.storages| {
      assert BlankAt(s, i);
      if s.creator.Ready? && i == s.creator.storage && s.head == To(i) {
        assert ListedAt(s.storages, s.places, s.list, 0);
      }
    } else {
      assert forall j :: 0 <= j < |s.places| ==> PlaceAt(s, j);
    }
  }

  lemma BlankReleaser(s: State, t: nat, fails: bool, i: nat)
    requires Inv(s) && BlankOK(s) && Enabled(s, ReleaserStep(t, fails)) && i < |s.storages|
    ensures i < |Do(s, ReleaserStep(t, fails)).storages| && BlankAt(Do(s, ReleaserStep(t, fails)), i)
  {
    assert BlankAt(s, i) && PlaceAt(s, i) && ReleaserAt(s, t);
  }

  lemma BlankStep(s: State, s': State)
    requires Inv(s) && BlankOK(s) && Next(s, s')
    ensures BlankOK(s')
  {
    var a :| Enabled(s, a) && s' == Do(s, a);
    forall i | 0 <= i < |s'.storages| ensures BlankAt(s', i) {
      if a.Create? || a.CreatorStep? {
        BlankCreator(s, a, i);
      } else if a.ReleaserStep? {
        BlankReleaser(s, a.t, a.fails, i);
      } else {
        assert BlankAt(s, i);
        if a.Release? { assert forall u :: 0 <= u < |s.releasers| ==> ReleaserAt(s, u); }
      }
    }
  }

  lemma {:induction false} RunBlank(run: seq<State>, k: nat)
    requires IsRun(run) && k < |run|
    ensures BlankOK(run[k])
  {
    if k > 0 {
      RunBlank(run, k - 1);
      RunInv(run, k - 1);
      assert StepAt(run, k - 1);
      BlankStep(run[k - 1], run[k]);
    }
  }

  /** A storage in the list has no data. */
  lemma ListedIsBlank(run: seq<State>, k: nat, i: nat)
    requires IsRun(run) && k < |run| && i < |run[k].storages| && i in run[k].list
    ensures run[k].storages[i].data == Blank
  {
    RunBlank(run, k);
    ListedIsUnused(run, k, i);
    assert BlankAt(run[k], i);
  }
}
