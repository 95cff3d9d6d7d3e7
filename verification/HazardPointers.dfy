/**
 * The hazard pointers of pxcutils/pxc/utils/HazardPointers.h, as a state machine with one
 * step per atomic operation, any number of hazard slots, retiring threads and shared cells.
 *
 * A holder announces a pointer in its slot and loads the cell again: only a pointer that is
 * still there after the announcement is handed out.  A retiring thread scans the slots one
 * at a time and destroys what it saw in none of them.  Addresses may be reused as soon as
 * their object is destroyed.  The theorems: what protect handed out is not destroyed until
 * its slot is overwritten or cleared, and a retire call destroys everything that no slot
 * holds while it scans.
 */
module HazardPointers {
  /** An address: NULL, the mark of a reserved slot, or an object. */
  type Ptr = nat

  const NULL: Ptr := 0
  const RESERVED: Ptr := 1

  predicate IsObject(p: Ptr) { p > RESERVED }

  // ----- state

  /** Where a live object is: history that the invariant ties to cells and lists. */
  datatype Place = Linked | Unlinked | Retired(owner: nat)

  datatype HolderPc =
    | Idle
    | Load(cell: nat, saved: Ptr)     // in the loop of do_protect, about to load the cell
    | Store(cell: nat, toSave: Ptr)   // about to announce what it loaded

  /** handed is history: the last pointer that protect returned for the value now in the slot. */
  datatype Slot = Slot(hazard: Ptr, pc: HolderPc, handed: Ptr)

  datatype RetirePc =
    | Away
    | Scan(it: nat, h: nat)           // is_protected of the it-th pointer, about to load slot h

  datatype Retirer = Retirer(toDelete: seq<Ptr>, pc: RetirePc)

  datatype State = State(cells: seq<Ptr>, slots: seq<Slot>, retirers: seq<Retirer>, place: map<Ptr, Place>)

  ghost predicate Init(s: State) {
    && (forall c :: 0 <= c < |s.cells| ==> s.cells[c] == NULL)
    && (forall h :: 0 <= h < |s.slots| ==> s.slots[h] == Slot(NULL, Idle, NULL))
    && (forall t :: 0 <= t < |s.retirers| ==> s.retirers[t] == Retirer([], Away))
    && s.place == map[]
  }

  // ----- steps

  datatype Action =
    | Write(c: nat, p: Ptr)        // the user replaces the pointer in a cell
    | Reserve(h: nat)              // constructor of Holder
    | Protect(h: nat, c: nat)
    | Advance(h: nat)              // the next atomic operation of do_protect
    | Clear(h: nat)
    | Retire(t: nat, p: Ptr)
    | ScanOne(t: nat)

  /** Users link a new object or one that is linked, and retire what they unlinked, once. */
  ghost predicate Enabled(s: State, a: Action) {
    match a
    case Write(c, p) => c < |s.cells| && (p == NULL || (IsObject(p) && (p in s.place ==> s.place[p] == Linked)))
    case Reserve(h) => h < |s.slots| && s.slots[h].pc == Idle && s.slots[h].hazard == NULL
    case Protect(h, c) => h < |s.slots| && c < |s.cells| && s.slots[h].pc == Idle
    case Advance(h) => h < |s.slots| && s.slots[h].pc != Idle && s.slots[h].pc.cell < |s.cells|
    case Clear(h) => h < |s.slots| && s.slots[h].pc == Idle
    case Retire(t, p) => t < |s.retirers| && s.retirers[t].pc == Away && (p == NULL || (p in s.place && s.place[p] == Unlinked))
    case ScanOne(t) => t < |s.retirers| && s.retirers[t].pc.Scan?
  }

  function Writing(s: State, c: nat, p: Ptr): State
    requires c < |s.cells|
  {
    var was := s.cells[c];
    var cells := s.cells[c := p];
    var place := if p == NULL then s.place else s.place[p := Linked];
    s.(cells := cells, place := if was != NULL && was !in cells then place[was := Unlinked] else place)
  }

  function Advancing(cells: seq<Ptr>, slot: Slot): Slot
    requires slot.pc != Idle && slot.pc.cell < |cells|
  {
    match slot.pc
    case Load(c, saved) =>
      if cells[c] != saved then slot.(pc := Store(c, cells[c]))
      else slot.(pc := Idle, handed := if saved != NULL then saved else slot.handed)
    case Store(c, toSave) => Slot(toSave, Load(c, toSave), NULL)
  }

  function PutSlot(s: State, h: nat, slot: Slot): State
    requires h < |s.slots|
  {
    s.(slots := s.slots[h := slot])
  }

  function Retiring(s: State, t: nat, p: Ptr): State
    requires t < |s.retirers|
  {
    var list := s.retirers[t].toDelete + if p == NULL then [] else [p];
    s.(retirers := s.retirers[t := Retirer(list, Scan(0, 0))],
       place := if p == NULL then s.place else s.place[p := Retired(t)])
  }

  function Scanning(s: State, t: nat): State
    requires t < |s.retirers| && s.retirers[t].pc.Scan?
  {
    var list, it, h := s.retirers[t].toDelete, s.retirers[t].pc.it, s.retirers[t].pc.h;
    if it >= |list| then s.(retirers := s.retirers[t := Retirer(list, Away)])
    else if h >= |s.slots| then
      s.(retirers := s.retirers[t := Retirer(list[..it] + list[it + 1..], Scan(it, 0))], place := s.place - {list[it]})
    else
      s.(retirers := s.retirers[t := Retirer(list, if s.slots[h].hazard == list[it] then Scan(it + 1, 0) else Scan(it, h + 1))])
  }

  function Do(s: State, a: Action): State
    requires Enabled(s, a)
  {
    match a
    case Write(c, p) => Writing(s, c, p)
    case Reserve(h) => PutSlot(s, h, s.slots[h].(hazard := RESERVED))
    case Protect(h, c) => PutSlot(s, h, s.slots[h].(pc := Load(c, NULL)))
    case Advance(h) => PutSlot(s, h, Advancing(s.cells, s.slots[h]))
    case Clear(h) => PutSlot(s, h, Slot(NULL, Idle, NULL))
    case Retire(t, p) => Retiring(s, t, p)
    case ScanOne(t) => Scanning(s, t)
  }

  ghost predicate Next(s: State, s': State) {
    exists a :: Enabled(s, a) && s' == Do(s, a)
  }

  // ----- the invariant

  /** The objects in cells are exactly the linked ones. */
  ghost predicate CellsOK(s: State) {
    && (forall p :: p in s.place ==> IsObject(p))
    && (forall p :: IsObject(p) ==> (p in s.cells <==> p in s.place && s.place[p] == Linked))
    && RESERVED !in s.cells
  }

  ghost predicate NoDuplicates(list: seq<Ptr>) {
    forall i, j :: 0 <= i < j < |list| ==> list[i] != list[j]
  }

  /** The retired objects that are not yet destroyed are exactly those in the lists, each in one list, once. */
  ghost predicate ListOK(s: State, t: nat)
    requires t < |s.retirers|
  {
    && NoDuplicates(s.retirers[t].toDelete)
    && forall p :: p in s.retirers[t].toDelete <==> p in s.place && s.place[p] == Retired(t)
  }

  /** The slots before h were loaded in the scan for p. */
  ghost predicate Scanned(r: Retirer, p: Ptr, h: nat) {
    r.pc.Scan? && r.pc.it < |r.toDelete| && r.toDelete[r.pc.it] == p && h < r.pc.h
  }

  /** A handed out pointer is announced in the slot, is alive, and no scan for it has passed the slot. */
  ghost predicate SlotOK(s: State, h: nat)
    requires h < |s.slots|
  {
    var slot := s.slots[h];
    && (slot.pc.Load? && slot.pc.saved != NULL ==> slot.hazard == slot.pc.saved)
    && (slot.handed != NULL ==>
          && slot.hazard == slot.handed && slot.handed in s.place
          && forall t :: 0 <= t < |s.retirers| ==> !Scanned(s.retirers[t], slot.handed, h))
  }

  ghost predicate Inv(s: State) {
    && CellsOK(s)
    && (forall t :: 0 <= t < |s.retirers| ==> ListOK(s, t))
    && (forall h :: 0 <= h < |s.slots| ==> SlotOK(s, h))
  }

  lemma InitInv(s: State)
    requires Init(s)
    ensures Inv(s)
  {
  }

  // ----- every step keeps it

  lemma WriteInv(s: State, c: nat, p: Ptr)
    requires Inv(s) && Enabled(s, Write(c, p))
    ensures Inv(Writing(s, c, p))
  {
    var s' := Writing(s, c, p);
    var was := s.cells[c];
    assert was in s.cells;
    forall q | IsObject(q) ensures q in s'.cells <==> q in s'.place && s'.place[q] == Linked {
      WrittenCell(s.cells, c, p, q);
    }
    forall t | 0 <= t < |s.retirers| ensures ListOK(s', t) {
      assert ListOK(s, t);
    }
    forall h | 0 <= h < |s.slots| ensures SlotOK(s', h) {
      assert SlotOK(s, h);
    }
  }

  lemma WrittenCell(cells: seq<Ptr>, c: nat, p: Ptr, q: Ptr)
    requires c < |cells|
    ensures q in cells && q != cells[c] ==> q in cells[c := p]
    ensures q in cells[c := p] ==> q == p || q in cells
    ensures p in cells[c := p]
  {
    var cells' := cells[c := p];
    assert cells'[c] == p;
    if q in cells && q != cells[c] {
      var i :| 0 <= i < |cells| && cells[i] == q;
      assert cells'[i] == q;
    }
  }

  /** A pointer is handed out only while its cell holds it: then it is in no list, and no scan for it runs. */
  lemma HandedIsLinked(s: State, h: nat)
    requires Inv(s) && Enabled(s, Advance(h)) && s.slots[h].pc.Load? && s.slots[h].pc.saved != NULL
    requires s.cells[s.slots[h].pc.cell] == s.slots[h].pc.saved
    ensures var p := s.slots[h].pc.saved;
      && p in s.place && s.place[p] == Linked && s.slots[h].hazard == p
      && forall t :: 0 <= t < |s.retirers| ==> p !in s.retirers[t].toDelete
  {
    var p := s.slots[h].pc.saved;
    assert p in s.cells;
    assert SlotOK(s, h);
    forall t | 0 <= t < |s.retirers| ensures p !in s.retirers[t].toDelete {
      assert ListOK(s, t);
    }
  }

  /** Only one slot changes, and it is well after. */
  lemma SlotStep(s: State, h: nat, slot: Slot)
    requires Inv(s) && h < |s.slots| && SlotOK(PutSlot(s, h, slot), h)
    ensures Inv(PutSlot(s, h, slot))
  {
    var s' := PutSlot(s, h, slot);
    forall t | 0 <= t < |s.retirers| ensures ListOK(s', t) {
      assert ListOK(s, t);
    }
    forall g | 0 <= g < |s.slots| ensures SlotOK(s', g) {
      assert SlotOK(s, g);
    }
  }

  lemma AdvanceInv(s: State, h: nat)
    requires Inv(s) && Enabled(s, Advance(h))
    ensures Inv(Do(s, Advance(h)))
  {
    var slot := s.slots[h];
    assert SlotOK(s, h);
    if slot.pc.Load? && slot.pc.saved != NULL && s.cells[slot.pc.cell] == slot.pc.saved {
      HandedIsLinked(s, h);
    }
    SlotStep(s, h, Advancing(s.cells, slot));
  }

  lemma RetireInv(s: State, t: nat, p: Ptr)
    requires Inv(s) && Enabled(s, Retire(t, p))
    ensures Inv(Retiring(s, t, p))
  {
    var s' := Retiring(s, t, p);
    assert ListOK(s, t);
    forall q ensures q in s'.retirers[t].toDelete <==> q in s.retirers[t].toDelete || (q == p && p != NULL) {
    }
    forall u | 0 <= u < |s.retirers| ensures ListOK(s', u) {
      assert ListOK(s, u);
    }
    forall h | 0 <= h < |s.slots| ensures SlotOK(s', h) {
      assert SlotOK(s, h);
    }
  }

  /** The scan for a handed out pointer meets it in its slot. */
  lemma ScanMeets(s: State, t: nat, g: nat)
    requires Inv(s) && Enabled(s, ScanOne(t)) && g < |s.slots| && s.slots[g].handed != NULL
    requires s.retirers[t].pc.it < |s.retirers[t].toDelete|
    requires s.retirers[t].toDelete[s.retirers[t].pc.it] == s.slots[g].handed
    ensures s.retirers[t].pc.h <= g
    ensures s.retirers[t].pc.h == g ==> s.slots[g].hazard == s.retirers[t].toDelete[s.retirers[t].pc.it]
  {
    assert SlotOK(s, g);
    assert !Scanned(s.retirers[t], s.slots[g].handed, g);
  }

  lemma Erased(list: seq<Ptr>, i: nat, q: Ptr)
    requires i < |list| && NoDuplicates(list)
    ensures NoDuplicates(list[..i] + list[i + 1..])
    ensures q in list[..i] + list[i + 1..] <==> q in list && q != list[i]
  {
    var list' := list[..i] + list[i + 1..];
    assert forall k :: 0 <= k < |list'| ==> list'[k] == if k < i then list[k] else list[k + 1];
    if q in list && q != list[i] {
      var k :| 0 <= k < |list| && list[k] == q;
      assert list'[if k < i then k else k - 1] == q;
    }
  }

  lemma EraseInv(s: State, t: nat)
    requires Inv(s) && Enabled(s, ScanOne(t)) && s.retirers[t].pc.it < |s.retirers[t].toDelete| && s.retirers[t].pc.h >= |s.slots|
    ensures Inv(Scanning(s, t))
  {
    var s' := Scanning(s, t);
    var list, it := s.retirers[t].toDelete, s.retirers[t].pc.it;
    assert ListOK(s, t);
    assert list[it] in list;
    forall q ensures NoDuplicates(s'.retirers[t].toDelete) && (q in s'.retirers[t].toDelete <==> q in list && q != list[it]) {
      Erased(list, it, q);
    }
    forall u | 0 <= u < |s.retirers| ensures ListOK(s', u) {
      assert ListOK(s, u);
    }
    forall h | 0 <= h < |s.slots| ensures SlotOK(s', h) {
      assert SlotOK(s, h);
      if s.slots[h].handed == list[it] {
        ScanMeets(s, t, h);
      }
      forall u | 0 <= u < |s.retirers| && s.slots[h].handed != NULL ensures !Scanned(s'.retirers[u], s.slots[h].handed, h) {
        assert !Scanned(s.retirers[u], s.slots[h].handed, h);
      }
    }
  }

  lemma ScanInv(s: State, t: nat)
    requires Inv(s) && Enabled(s, ScanOne(t)) && !(s.retirers[t].pc.it < |s.retirers[t].toDelete| && s.retirers[t].pc.h >= |s.slots|)
    ensures Inv(Scanning(s, t))
  {
    var s' := Scanning(s, t);
    forall u | 0 <= u < |s.retirers| ensures ListOK(s', u) {
      assert ListOK(s, u);
    }
    forall h | 0 <= h < |s.slots| ensures SlotOK(s', h) {
      assert SlotOK(s, h);
      forall u | 0 <= u < |s.retirers| && s.slots[h].handed != NULL ensures !Scanned(s'.retirers[u], s.slots[h].handed, h) {
        assert !Scanned(s.retirers[u], s.slots[h].handed, h);
      }
    }
  }

  lemma StepInv(s: State, s': State)
    requires Inv(s) && Next(s, s')
    ensures Inv(s')
  {
    var a :| Enabled(s, a) && s' == Do(s, a);
    match a
    case Write(c, p) => WriteInv(s, c, p);
    case Reserve(h) => assert SlotOK(s, h); SlotStep(s, h, s.slots[h].(hazard := RESERVED));
    case Protect(h, c) => assert SlotOK(s, h); SlotStep(s, h, s.slots[h].(pc := Load(c, NULL)));
    case Advance(h) => AdvanceInv(s, h);
    case Clear(h) => SlotStep(s, h, Slot(NULL, Idle, NULL));
    case Retire(t, p) => RetireInv(s, t, p);
    case ScanOne(t) =>
      if s.retirers[t].pc.it < |s.retirers[t].toDelete| && s.retirers[t].pc.h >= |s.slots| {
        EraseInv(s, t);
      } else {
        ScanInv(s, t);
      }
  }

  // ----- whole runs

  ghost predicate StepAt(run: seq<State>, i: int)
    requires 0 <= i < |run| - 1
  {
    Next(run[i], run[i + 1])
  }

  ghost predicate IsRun(run: seq<State>) {
    run != [] && Init(run[0]) && forall i :: 0 <= i < |run| - 1 ==> StepAt(run, i)
  }

  lemma {:induction false} RunInv(run: seq<State>, i: nat)
    requires IsRun(run) && i < |run|
    ensures Inv(run[i])
  {
    if i == 0 {
      InitInv(run[0]);
    } else {
      RunInv(run, i - 1);
      assert StepAt(run, i - 1);
      StepInv(run[i - 1], run[i]);
    }
  }

  /** What a slot handed out is alive and announced in every state until the slot is overwritten or cleared. */
  lemma HandedIsAlive(run: seq<State>, i: nat, h: nat)
    requires IsRun(run) && i < |run| && h < |run[i].slots| && run[i].slots[h].handed != NULL
    ensures run[i].slots[h].handed in run[i].place && run[i].slots[h].hazard == run[i].slots[h].handed
  {
    RunInv(run, i);
    assert SlotOK(run[i], h);
  }

  /** Only a scan destroys an object, and never one that a slot handed out. */
  lemma DestroyedIsUnused(s: State, a: Action, p: Ptr, h: nat)
    requires Inv(s) && Enabled(s, a) && p in s.place && p !in Do(s, a).place && h < |s.slots|
    ensures a.ScanOne? && s.place[p] == Retired(a.t) && s.slots[h].handed != p
  {
    if a.ScanOne? {
      var r := s.retirers[a.t];
      assert ListOK(s, a.t);
      assert p == r.toDelete[r.pc.it] && p in r.toDelete;
      if s.slots[h].handed == p { ScanMeets(s, a.t, h); }
    }
  }

  /** A destroyed object is in no cell: nobody can load it any more. */
  lemma DestroyedIsUnreachable(run: seq<State>, i: nat, c: nat)
    requires IsRun(run) && i < |run| && c < |run[i].cells| && run[i].cells[c] != NULL
    ensures run[i].cells[c] in run[i].place && run[i].place[run[i].cells[c]] == Linked
  {
    RunInv(run, i);
    assert run[i].cells[c] in run[i].cells;
  }

  // ----- what a retire call destroys

  ghost predicate Held(s: State, p: Ptr) {
    exists h :: 0 <= h < |s.slots| && s.slots[h].hazard == p
  }

  /** The scan of thread t has still to decide on p, or has destroyed it. */
  ghost predicate Undecided(s: State, t: nat, p: Ptr) {
    t < |s.retirers| &&
    (p in s.retirers[t].toDelete ==> s.retirers[t].pc.Scan? && s.retirers[t].pc.it <= |s.retirers[t].toDelete|
                                     && p in s.retirers[t].toDelete[s.retirers[t].pc.it..])
  }

  lemma ScanDecides(s: State, t: nat, p: Ptr)
    requires Enabled(s, ScanOne(t)) && ListOK(s, t) && Undecided(s, t, p) && !Held(s, p)
    ensures Undecided(Scanning(s, t), t, p)
  {
    var s' := Scanning(s, t);
    var list, it, h := s.retirers[t].toDelete, s.retirers[t].pc.it, s.retirers[t].pc.h;
    if it < |list| {
      assert list[it..] == [list[it]] + list[it + 1..];
      if h >= |s.slots| {
        assert (list[..it] + list[it + 1..])[it..] == list[it + 1..];
        Erased(list, it, p);
      } else if s.slots[h].hazard == list[it] {
        assert list[it] != p;
      }
    }
  }

  lemma StepDecides(s: State, s': State, t: nat, p: Ptr)
    requires Inv(s) && Next(s, s') && Undecided(s, t, p) && !Held(s, p) && s.retirers[t].pc.Scan?
    ensures Undecided(s', t, p)
  {
    var a :| Enabled(s, a) && s' == Do(s, a);
    if a == ScanOne(t) {
      assert ListOK(s, t);
      ScanDecides(s, t, p);
    }
  }

  ghost predicate ScansUnheld(s: State, t: nat, p: Ptr) {
    t < |s.retirers| && s.retirers[t].pc.Scan? && !Held(s, p)
  }

  /** From the start of a retire call on, while no slot holds p. */
  lemma {:induction false} RunDecides(run: seq<State>, m: nat, j: nat, t: nat, p: Ptr)
    requires IsRun(run) && m <= j < |run| && t < |run[m].retirers| && run[m].retirers[t].pc == Scan(0, 0)
    requires forall i :: m <= i < j ==> ScansUnheld(run[i], t, p)
    ensures Undecided(run[j], t, p)
    decreases j
  {
    if m < j {
      RunDecides(run, m, j - 1, t, p);
      RunInv(run, j - 1);
      assert StepAt(run, j - 1);
      assert ScansUnheld(run[j - 1], t, p);
      StepDecides(run[j - 1], run[j], t, p);
    }
  }

  /** When a retire call returns, its thread keeps no pointer that was in no slot all the while. */
  lemma RetireDestroys(run: seq<State>, m: nat, j: nat, t: nat, p: Ptr)
    requires IsRun(run) && m <= j < |run| && t < |run[m].retirers| && run[m].retirers[t].pc == Scan(0, 0)
    requires forall i :: m <= i < j ==> ScansUnheld(run[i], t, p)
    requires t < |run[j].retirers| && run[j].retirers[t].pc == Away
    ensures p !in run[j].retirers[t].toDelete && (p in run[j].place ==> run[j].place[p] != Retired(t))
  {
    RunDecides(run, m, j, t, p);
    RunInv(run, j);
    assert ListOK(run[j], t);
  }
}
