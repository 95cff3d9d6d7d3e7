/**
 * The optimistic task scheduler of pxcutils/pxc/utils/ChainScheduler.h.
 *
 * A task belongs to several chains.  In every chain it may start as soon as its
 * predecessor has been started in the chain's current generation; a failure bumps the
 * generation, which makes everything started before it stale.  At most ten tasks of a
 * chain are active at a time.
 *
 * Module ChainModel holds the state as a value, with one function per primitive change.
 * Module ChainScheduler holds the mutable scheduler, whose methods are proved to perform
 * the primitive change followed by a maximal run of legal starts.
 */
module ChainModel {
  type TaskId = nat
  type ChainId = nat

  const MAX_ACTIVE: nat := 10

  datatype TaskState = Pending | Active | Paused

  datatype Task = Task(state: TaskState, chains: seq<ChainId>)

  datatype ChainNode = ChainNode(task: TaskId, generation: nat)

  datatype ChainInfo = ChainInfo(nodes: seq<ChainNode>, active: nat, generation: nat)

  datatype Core = Core(chains: map<ChainId, ChainInfo>, tasks: map<TaskId, Task>, pending: seq<TaskId>)

  // ----- reading one chain

  /** The position of t in a chain, or the length of the chain. */
  function IndexOf(nodes: seq<ChainNode>, t: TaskId): (i: nat)
    ensures i <= |nodes|
    ensures i < |nodes| ==> nodes[i].task == t
    ensures forall j :: 0 <= j < i ==> nodes[j].task != t
  {
    if nodes == [] then 0
    else if nodes[0].task == t then 0
    else
      var r := IndexOf(nodes[1..], t);
      assert forall j :: 0 < j < r + 1 ==> nodes[j] == nodes[1..][j - 1];
      r + 1
  }

  predicate Has(ch: ChainInfo, t: TaskId) {
    IndexOf(ch.nodes, t) < |ch.nodes|
  }

  /** t has a predecessor in the chain that was not started in the chain's current generation. */
  predicate StaleParent(ch: ChainInfo, t: TaskId) {
    var i := IndexOf(ch.nodes, t);
    0 < i < |ch.nodes| && ch.nodes[i - 1].generation != ch.generation
  }

  predicate IsChild(ch: ChainInfo, t: TaskId, x: TaskId) {
    var i := IndexOf(ch.nodes, t);
    i + 1 < |ch.nodes| && ch.nodes[i + 1].task == x
  }

  predicate IsActive(tasks: map<TaskId, Task>, t: TaskId) {
    t in tasks && tasks[t].state == Active
  }

  predicate IsPending(tasks: map<TaskId, Task>, t: TaskId) {
    t in tasks && tasks[t].state == Pending
  }

  function CountActive(nodes: seq<ChainNode>, tasks: map<TaskId, Task>): nat {
    if nodes == [] then 0
    else (if IsActive(tasks, nodes[0].task) then 1 else 0) + CountActive(nodes[1..], tasks)
  }

  // ----- the invariant

  ghost predicate NoDup<T(!new)>(s: seq<T>) {
    forall i, j :: 0 <= i < j < |s| ==> s[i] != s[j]
  }

  ghost predicate DistinctTasks(nodes: seq<ChainNode>) {
    forall i, j :: 0 <= i < j < |nodes| ==> nodes[i].task != nodes[j].task
  }

  ghost predicate NonIncreasing(nodes: seq<ChainNode>) {
    forall i, j :: 0 <= i < j < |nodes| ==> nodes[i].generation >= nodes[j].generation
  }

  /** What holds of every chain, except the count of its active tasks. */
  ghost predicate ChainShape(ch: ChainInfo, tasks: map<TaskId, Task>) {
    && |ch.nodes| > 0
    && ch.generation >= 1
    && DistinctTasks(ch.nodes)
    && NonIncreasing(ch.nodes)
    && (forall i :: 0 <= i < |ch.nodes| ==> ch.nodes[i].generation <= ch.generation)
    && (forall i :: 0 <= i < |ch.nodes| ==>
          (ch.nodes[i].generation == ch.generation ==> IsActive(tasks, ch.nodes[i].task)))
  }

  ghost predicate ChainOK(ch: ChainInfo, tasks: map<TaskId, Task>) {
    ChainShape(ch, tasks) && ch.active == CountActive(ch.nodes, tasks) <= MAX_ACTIVE
  }

  ghost predicate LinkAt(s: Core, t: TaskId, c: ChainId) {
    (t in s.tasks && c in s.tasks[t].chains) <==> (c in s.chains && Has(s.chains[c], t))
  }

  /** A task names exactly the chains it is a node of. */
  ghost predicate Linked(s: Core) {
    forall t, c :: LinkAt(s, t, c)
  }

  ghost predicate Base(s: Core) {
    && (forall c :: c in s.chains ==> c != 0 && ChainOK(s.chains[c], s.tasks))
    && (forall t :: t in s.tasks ==> NoDup(s.tasks[t].chains))
    && Linked(s)
    && NoDup(s.pending)
    && (forall t :: t in s.pending ==> IsActive(s.tasks, t))
  }

  /** Every predecessor is current and no chain of t is full. */
  ghost predicate Startable(s: Core, t: TaskId) {
    && IsPending(s.tasks, t)
    && forall c :: c in s.tasks[t].chains ==>
         c in s.chains && !StaleParent(s.chains[c], t) && s.chains[c].active < MAX_ACTIVE
  }

  /** t waits for a predecessor, or holds the waiting slot of a full chain. */
  ghost predicate BlockedBy(s: Core, limited: map<ChainId, TaskId>, t: TaskId, c: ChainId) {
    && c in s.chains
    && (StaleParent(s.chains[c], t) ||
        (c in limited && limited[c] == t && s.chains[c].active >= MAX_ACTIVE))
  }

  ghost predicate Blocked(s: Core, limited: map<ChainId, TaskId>, t: TaskId) {
    t in s.tasks && exists c :: c in s.tasks[t].chains && BlockedBy(s, limited, t, c)
  }

  ghost predicate LimitedOK(s: Core, limited: map<ChainId, TaskId>) {
    forall c :: c in limited ==>
      && c in s.chains
      && Has(s.chains[c], limited[c])
      && IsPending(s.tasks, limited[c])
      && !StaleParent(s.chains[c], limited[c])
      && s.chains[c].active == MAX_ACTIVE
  }

  /** The invariant while the tasks of `exempt` still have to be tried; at rest `exempt` is empty. */
  ghost predicate Inv(s: Core, limited: map<ChainId, TaskId>, exempt: set<TaskId>) {
    && Base(s)
    && LimitedOK(s, limited)
    && forall t :: IsPending(s.tasks, t) && t !in exempt ==> Blocked(s, limited, t)
  }

  /** Chains list their tasks in the order of creation. */
  ghost predicate InCreationOrder(s: Core, born: map<TaskId, nat>) {
    var all :=
      && (forall t :: t in s.tasks ==> t in born)
      && (forall c :: c in s.chains ==> Ascending(s.chains[c].nodes, born));
    all
  }

  ghost predicate Ascending(nodes: seq<ChainNode>, born: map<TaskId, nat>) {
    && (forall i :: 0 <= i < |nodes| ==> nodes[i].task in born)
    && (forall i, j :: 0 <= i < j < |nodes| ==> born[nodes[i].task] < born[nodes[j].task])
  }

  // ----- primitive changes

  function StartIn(ch: ChainInfo, t: TaskId): ChainInfo
    requires Has(ch, t)
  {
    ch.(nodes := ch.nodes[IndexOf(ch.nodes, t) := ChainNode(t, ch.generation)], active := ch.active + 1)
  }

  function InactivateIn(ch: ChainInfo, t: TaskId, wasActive: bool, failed: bool): ChainInfo
    requires Has(ch, t)
    requires wasActive ==> ch.active > 0
  {
    var g := ch.nodes[IndexOf(ch.nodes, t)].generation + 1;
    ch.(active := if wasActive then ch.active - 1 else ch.active,
        generation := if wasActive && failed && g > ch.generation then g else ch.generation)
  }

  function RemoveIn(ch: ChainInfo, t: TaskId): ChainInfo
    requires Has(ch, t)
  {
    var i := IndexOf(ch.nodes, t);
    ch.(nodes := ch.nodes[..i] + ch.nodes[i + 1..])
  }

  ghost predicate Member(s: Core, t: TaskId) {
    t in s.tasks && forall c :: c in s.tasks[t].chains ==> c in s.chains && Has(s.chains[c], t)
  }

  ghost function StartOne(s: Core, t: TaskId): Core
    requires Member(s, t)
  {
    Core(map c | c in s.chains :: if c in s.tasks[t].chains then StartIn(s.chains[c], t) else s.chains[c],
         s.tasks[t := s.tasks[t].(state := Active)],
         s.pending + [t])
  }

  ghost function Inactivated(s: Core, t: TaskId, failed: bool): Core
    requires Member(s, t)
    requires IsActive(s.tasks, t) ==> forall c :: c in s.tasks[t].chains ==> s.chains[c].active > 0
  {
    Core(map c | c in s.chains ::
           if c in s.tasks[t].chains then InactivateIn(s.chains[c], t, IsActive(s.tasks, t), failed) else s.chains[c],
         s.tasks[t := s.tasks[t].(state := Pending)],
         s.pending)
  }

  /** The finished task leaves its chains; a chain it leaves empty disappears. */
  ghost function Removed(s: Core, t: TaskId): Core
    requires Member(s, t)
  {
    Core(map c | c in s.chains && !(c in s.tasks[t].chains && |s.chains[c].nodes| == 1) ::
           if c in s.tasks[t].chains then RemoveIn(s.chains[c], t) else s.chains[c],
         map x | x in s.tasks && x != t :: s.tasks[x],
         s.pending)
  }

  ghost function ChainOrNew(s: Core, c: ChainId): ChainInfo {
    if c in s.chains then s.chains[c] else ChainInfo([], 0, 1)
  }

  ghost function Created(s: Core, t: TaskId, ids: seq<ChainId>): Core {
    Core(map c | c in s.chains.Keys + (set i | 0 <= i < |ids| :: ids[i]) ::
           if c in ids
           then ChainOrNew(s, c).(nodes := ChainOrNew(s, c).nodes + [ChainNode(t, 0)])
           else ChainOrNew(s, c),
         s.tasks[t := Task(Pending, ids)],
         s.pending)
  }

  // ----- runs of legal starts

  ghost predicate LegalRun(s: Core, run: seq<TaskId>)
    decreases |run|
  {
    run == [] || (Member(s, run[0]) && Startable(s, run[0]) && LegalRun(StartOne(s, run[0]), run[1..]))
  }

  ghost function AfterRun(s: Core, run: seq<TaskId>): Core
    requires LegalRun(s, run)
    decreases |run|
  {
    if run == [] then s else AfterRun(StartOne(s, run[0]), run[1..])
  }
}

module ChainScheduler {
  import opened ChainModel
  import opened ChainLemmas
  import opened ChainSteps
  import opened ChainRuns

  datatype TaskWithParents = None | Some(task: TaskId, parents: seq<TaskId>)

  class Scheduler {
    var chains: map<ChainId, ChainInfo>
    var limitedTasks: map<ChainId, TaskId>
    var tasks: map<TaskId, Task>
    var pendingTasks: seq<TaskId>
    var toStart: seq<TaskId>
    ghost var born: map<TaskId, nat>
    ghost var clock: nat

    ghost function View(): Core
      reads this
    {
      Core(chains, tasks, pendingTasks)
    }

    ghost predicate Valid()
      reads this
    {
      && Inv(View(), limitedTasks, {})
      && toStart == []
      && InCreationOrder(View(), born)
      && forall x :: x in born ==> born[x] < clock
    }

    constructor ()
      ensures Valid() && View() == Core(map[], map[], [])
    {
      chains, limitedTasks, tasks, pendingTasks, toStart := map[], map[], map[], [], [];
      born, clock := map[], 0;
    }

    // ----- starting

    method TryStartTask(t: TaskId, ghost exempt: set<TaskId>) returns (ghost run: seq<TaskId>)
      requires t in tasks && Inv(View(), limitedTasks, exempt)
      modifies this`chains, this`limitedTasks, this`tasks, this`pendingTasks
      ensures Inv(View(), limitedTasks, exempt - {t})
      ensures LegalRun(old(View()), run) && View() == AfterRun(old(View()), run)
      ensures SameStructure(old(View()), View())
      decreases PendingSet(tasks), 1
    {
      run := [];
      if tasks[t].state != Pending {
        return;
      }
      var ids := tasks[t].chains;
      BaseMember(View(), t);
      for k := 0 to |ids|
        invariant forall j :: 0 <= j < k ==> !StaleParent(chains[ids[j]], t) && chains[ids[j]].active < MAX_ACTIVE
        invariant chains == old(chains) && tasks == old(tasks) && pendingTasks == old(pendingTasks)
        invariant limitedTasks == old(limitedTasks)
      {
        var chain := chains[ids[k]];
        if StaleParent(chain, t) {
          WaitForParent(View(), limitedTasks, exempt, t, ids[k]);
          return;
        }
        if chain.active >= MAX_ACTIVE {
          RecordLimited(View(), limitedTasks, exempt, t, ids[k]);
          limitedTasks := limitedTasks[ids[k] := t];
          return;
        }
      }
      run := DoStartTask(t, exempt);
    }

    method DoStartTask(t: TaskId, ghost exempt: set<TaskId>) returns (ghost run: seq<TaskId>)
      requires t in tasks && Startable(View(), t) && Inv(View(), limitedTasks, exempt)
      modifies this`chains, this`limitedTasks, this`tasks, this`pendingTasks
      ensures Inv(View(), limitedTasks, exempt - {t})
      ensures LegalRun(old(View()), run) && View() == AfterRun(old(View()), run)
      ensures SameStructure(old(View()), View())
      decreases PendingSet(tasks), 0
    {
      BaseMember(View(), t);
      MarkStarted(t);
      StartOneInv(old(View()), limitedTasks, exempt, t);
      RunOne(old(View()), t);
      ghost var started := View();
      ChildrenSame(old(View()), started, t, tasks[t].chains);
      assert PendingSet(tasks) < PendingSet(old(tasks)) by {
        PendingShrinks(old(View()), View());
        assert t in PendingSet(old(tasks)) && t !in PendingSet(tasks);
      }
      ghost var more := TryChildren(t, exempt - {t});
      RunConcat(old(View()), [t], more);
      run := [t] + more;
      SameStructureTransitive(old(View()), started, View());
    }

    /** The walk over the children of a started task. */
    method TryChildren(t: TaskId, ghost rest: set<TaskId>) returns (ghost run: seq<TaskId>)
      requires t in tasks && Inv(View(), limitedTasks, rest + Children(View(), t, tasks[t].chains))
      modifies this`chains, this`limitedTasks, this`tasks, this`pendingTasks
      ensures Inv(View(), limitedTasks, rest)
      ensures LegalRun(old(View()), run) && View() == AfterRun(old(View()), run)
      ensures SameStructure(old(View()), View())
      decreases PendingSet(tasks), 5
    {
      run := [];
      ghost var started := View();
      var ids := tasks[t].chains;
      assert ids[0..] == ids;
      for k := 0 to |ids|
        invariant Walked(started, t, ids, k, rest, run)
      {
        PendingShrinks(started, View());
        run := TryOneMore(started, t, ids, k, rest, run);
      }
      assert ids[|ids|..] == [];
      assert rest + Children(started, t, []) == rest;
    }

    /** From the start of the walk, run led here, and the children in the chains from the k-th on are owed. */
    ghost predicate Walked(started: Core, t: TaskId, ids: seq<ChainId>, k: nat, rest: set<TaskId>, run: seq<TaskId>)
      reads this
    {
      var all := k <= |ids| && t in tasks && tasks[t].chains == ids && SameStructure(started, View())
        && Inv(View(), limitedTasks, rest + Children(started, t, ids[k..]))
        && LegalRun(started, run) && View() == AfterRun(started, run);
      all
    }

    method TryOneMore(ghost started: Core, t: TaskId, ids: seq<ChainId>, k: nat, ghost rest: set<TaskId>, ghost run: seq<TaskId>)
      returns (ghost run': seq<TaskId>)
      requires k < |ids| && Walked(started, t, ids, k, rest, run)
      modifies this`chains, this`limitedTasks, this`tasks, this`pendingTasks
      ensures Walked(started, t, ids, k + 1, rest, run')
      decreases PendingSet(tasks), 4
    {
      ghost var more := TryChild(t, k, started, rest);
      RunConcat(started, run, more);
      run' := run + more;
    }

    /** One turn of the walk over the children of a started task: the one in its k-th chain, if any. */
    method TryChild(t: TaskId, k: nat, ghost started: Core, ghost rest: set<TaskId>) returns (ghost run: seq<TaskId>)
      requires t in tasks && SameStructure(started, View()) && k < |tasks[t].chains|
      requires Inv(View(), limitedTasks, rest + Children(started, t, tasks[t].chains[k..]))
      modifies this`chains, this`limitedTasks, this`tasks, this`pendingTasks
      ensures SameStructure(started, View())
      ensures Inv(View(), limitedTasks, rest + Children(started, t, old(tasks)[t].chains[k + 1..]))
      ensures LegalRun(old(View()), run) && View() == AfterRun(old(View()), run)
      decreases PendingSet(tasks), 3
    {
      var ids := tasks[t].chains;
      ghost var waiting := rest + Children(started, t, ids[k..]);
      BaseMember(View(), t);
      SameIndex(started.chains[ids[k]].nodes, chains[ids[k]].nodes, t);
      run := TryNext(t, ids[k], started, waiting);
      ChildTaken(started, t, ids, k, rest);
      ExemptMore(View(), limitedTasks, waiting - SetOf(ChildOf(started.chains, t, ids[k])), rest + Children(started, t, ids[k + 1..]));
    }

    /** Tries the task behind t in one chain, if there is one. */
    method TryNext(t: TaskId, c: ChainId, ghost started: Core, ghost waiting: set<TaskId>) returns (ghost run: seq<TaskId>)
      requires c in chains && SameStructure(started, View()) && Inv(View(), limitedTasks, waiting)
      requires IndexOf(started.chains[c].nodes, t) == IndexOf(chains[c].nodes, t)
      modifies this`chains, this`limitedTasks, this`tasks, this`pendingTasks
      ensures SameStructure(started, View())
      ensures Inv(View(), limitedTasks, waiting - SetOf(ChildOf(started.chains, t, c)))
      ensures LegalRun(old(View()), run) && View() == AfterRun(old(View()), run)
      decreases PendingSet(tasks), 2
    {
      run := [];
      var chain := chains[c];
      var i := IndexOf(chain.nodes, t);
      if i + 1 < |chain.nodes| {
        ChildKnown(View(), t, c);
        var child := chain.nodes[i + 1].task;
        run := TryStartTask(child, waiting);
        SameStructureTransitive(started, old(View()), View());
        assert SetOf([child]) == {child};
      } else {
        assert SetOf([]) == {} && waiting - {} == waiting;
      }
    }

    /** The updates of a start, before its children are tried. */
    method MarkStarted(t: TaskId)
      requires t in tasks && Member(View(), t) && NoDup(tasks[t].chains)
      modifies this`chains, this`tasks, this`pendingTasks
      ensures View() == StartOne(old(View()), t)
    {
      var ids := tasks[t].chains;
      for k := 0 to |ids|
        invariant chains == map c | c in old(chains) :: if c in ids[..k] then StartIn(old(chains)[c], t) else old(chains)[c]
        invariant tasks == old(tasks) && pendingTasks == old(pendingTasks)
      {
        assert ids[k] !in ids[..k];
        var chain := chains[ids[k]];
        var i := IndexOf(chain.nodes, t);
        chain := chain.(active := chain.active + 1);
        chain := chain.(nodes := chain.nodes[i := ChainNode(t, chain.generation)]);
        chains := chains[ids[k] := chain];
        assert ids[..k + 1] == ids[..k] + [ids[k]];
      }
      assert ids[..|ids|] == ids;
      tasks := tasks[t := tasks[t].(state := Active)];
      pendingTasks := pendingTasks + [t];
    }

    method FlushTryStart() returns (ghost run: seq<TaskId>)
      requires Inv(View(), limitedTasks, SetOf(toStart))
      requires forall x :: x in toStart ==> x in tasks
      modifies this`chains, this`limitedTasks, this`tasks, this`pendingTasks, this`toStart
      ensures Inv(View(), limitedTasks, {}) && toStart == []
      ensures LegalRun(old(View()), run) && View() == AfterRun(old(View()), run)
      ensures SameStructure(old(View()), View())
    {
      run := [];
      var moved := toStart;
      toStart := [];
      assert moved[0..] == moved;
      for k := 0 to |moved|
        invariant toStart == []
        invariant SameStructure(old(View()), View())
        invariant Inv(View(), limitedTasks, SetOf(moved[k..]))
        invariant LegalRun(old(View()), run) && View() == AfterRun(old(View()), run)
      {
        ghost var now := View();
        ghost var waiting := SetOf(moved[k..]);
        ghost var more := TryStartTask(moved[k], waiting);
        RunConcat(old(View()), run, more);
        run := run + more;
        SameStructureTransitive(old(View()), now, View());
        assert waiting - {moved[k]} <= SetOf(moved[k + 1..]);
        ExemptMore(View(), limitedTasks, waiting - {moved[k]}, SetOf(moved[k + 1..]));
      }
      assert SetOf(moved[|moved|..]) == {};
    }

    // ----- stopping

    method InactivateTask(t: TaskId, failed: bool)
      requires Base(View()) && LimitedOK(View(), limitedTasks) && t in tasks && toStart == []
      modifies this`chains, this`limitedTasks, this`tasks, this`toStart
      ensures Member(old(View()), t)
      ensures IsActive(old(tasks), t) ==> forall c :: c in old(tasks)[t].chains ==> old(chains)[c].active > 0
      ensures View() == Inactivated(old(View()), t, failed)
      ensures limitedTasks == Without(old(limitedTasks), old(tasks)[t].chains)
      ensures toStart == WakeList(old(chains), old(limitedTasks), t, old(tasks)[t].chains)
    {
      BaseMember(View(), t);
      var wasActive := tasks[t].state == Active;
      tasks := tasks[t := tasks[t].(state := Pending)];
      InactivateChains(t, tasks[t].chains, wasActive, failed);
    }

    method InactivateChains(t: TaskId, ids: seq<ChainId>, wasActive: bool, failed: bool)
      requires NoDup(ids) && toStart == []
      requires forall c :: c in ids ==> c in chains && Has(chains[c], t) && (wasActive ==> chains[c].active > 0)
      modifies this`chains, this`limitedTasks, this`toStart
      ensures chains == InactivatedChains(old(chains), ids, t, wasActive, failed)
      ensures limitedTasks == Without(old(limitedTasks), ids)
      ensures toStart == WakeList(old(chains), old(limitedTasks), t, ids)
    {
      for k := 0 to |ids|
        invariant chains == InactivatedChains(old(chains), ids[..k], t, wasActive, failed)
        invariant limitedTasks == Without(old(limitedTasks), ids[..k])
        invariant toStart == WakeList(old(chains), old(limitedTasks), t, ids[..k])
      {
        assert ids[k] !in ids[..k];
        InactivateStep(old(chains), old(limitedTasks), ids, k, t, wasActive, failed);
        InactivateInChain(t, ids[k], wasActive, failed);
      }
      assert ids[..|ids|] == ids;
    }

    method InactivateInChain(t: TaskId, c: ChainId, wasActive: bool, failed: bool)
      requires c in chains && Has(chains[c], t) && (wasActive ==> chains[c].active > 0)
      modifies this`chains, this`limitedTasks, this`toStart
      ensures chains == old(chains)[c := InactivateIn(old(chains)[c], t, wasActive, failed)]
      ensures limitedTasks == map d | d in old(limitedTasks) && d != c :: old(limitedTasks)[d]
      ensures toStart == old(toStart) + WakeOf(old(chains), old(limitedTasks), t, c)
    {
      var chain := chains[c];
      var node := chain.nodes[IndexOf(chain.nodes, t)];
      if wasActive {
        chain := chain.(active := chain.active - 1);
      }
      if wasActive && failed {
        chain := chain.(generation :=
          if chain.generation < node.generation + 1 then node.generation + 1 else chain.generation);
      }
      chains := chains[c := chain];
      if c in limitedTasks {
        var waiting := limitedTasks[c];
        limitedTasks := map d | d in limitedTasks && d != c :: limitedTasks[d];
        if waiting != t {
          toStart := toStart + [waiting];
        }
      }
      if chain.nodes[0].task != t {
        toStart := toStart + [chain.nodes[0].task];
      }
    }

    // ----- the public operations

    method CreateTask(ids: seq<ChainId>, t: TaskId) returns (ghost run: seq<TaskId>)
      requires Valid() && t !in tasks && NoDup(ids) && 0 !in ids
      modifies this
      ensures Valid()
      ensures LegalRun(Created(old(View()), t, ids), run) && View() == AfterRun(Created(old(View()), t, ids), run)
      ensures born == old(born)[t := old(clock)] && clock == old(clock) + 1
      ensures tasks.Keys == old(tasks.Keys) + {t} && tasks[t].chains == ids
      ensures forall x :: x in old(tasks) ==> tasks[x].chains == old(tasks)[x].chains
    {
      ghost var s, created := View(), Created(View(), t, ids);
      Enter(ids, t);
      run := TryNew(t);
      OrderSame(created, View(), born);
      CreatedChains(s, t, ids, View());
    }

    /** The new task in its chains, before its first try. */
    method Enter(ids: seq<ChainId>, t: TaskId)
      requires Valid() && t !in tasks && NoDup(ids) && 0 !in ids
      modifies this`chains, this`tasks, this`born, this`clock
      ensures View() == Created(old(View()), t, ids) && Inv(View(), limitedTasks, {t}) && InCreationOrder(View(), born)
      ensures born == old(born)[t := old(clock)] && clock == old(clock) + 1 && forall x :: x in born ==> born[x] < clock
    {
      CreatedReady(View(), limitedTasks, t, ids, born, clock);
      Register(t, ids);
      born, clock := born[t := clock], clock + 1;
    }

    /** The first try of a new task, the only one that may be startable. */
    method TryNew(t: TaskId) returns (ghost run: seq<TaskId>)
      requires t in tasks && Inv(View(), limitedTasks, {t})
      modifies this`chains, this`limitedTasks, this`tasks, this`pendingTasks
      ensures Inv(View(), limitedTasks, {})
      ensures LegalRun(old(View()), run) && View() == AfterRun(old(View()), run)
      ensures SameStructure(old(View()), View())
    {
      run := TryStartTask(t, {t});
      assert {t} - {t} == {};
    }

    method Register(t: TaskId, ids: seq<ChainId>)
      requires NoDup(ids)
      modifies this`chains, this`tasks
      ensures View() == Created(old(View()), t, ids)
    {
      tasks := tasks[t := Task(Pending, ids)];
      AddToChains(t, ids);
    }

    method AddToChains(t: TaskId, ids: seq<ChainId>)
      requires NoDup(ids)
      modifies this`chains
      ensures chains == Created(Core(old(chains), tasks, pendingTasks), t, ids).chains
    {
      ghost var s := Core(old(chains), tasks, pendingTasks);
      for k := 0 to |ids|
        invariant chains == WithNew(s, ids[..k])
      {
        WithNewStep(s, ids, k);
        if ids[k] !in chains {
          chains := chains[ids[k] := ChainInfo([], 0, 1)];
        }
      }
      assert ids[..|ids|] == ids;
      for k := 0 to |ids|
        invariant chains == WithNodes(s, ids, t, k)
      {
        WithNodesStep(s, ids, t, k);
        var chain := chains[ids[k]];
        chains := chains[ids[k] := chain.(nodes := chain.nodes + [ChainNode(t, 0)])];
      }
    }

    /** Hands out the longest-waiting started task, with its current predecessors. */
    method StartNextTask() returns (r: TaskWithParents)
      requires Valid()
      modifies this`pendingTasks
      ensures Valid()
      ensures r.None? <==> old(pendingTasks) == []
      ensures r.None? ==> pendingTasks == old(pendingTasks)
      ensures r.Some? ==>
        && old(pendingTasks) == [r.task] + pendingTasks
        && IsActive(tasks, r.task)
        && r.parents == ParentList(chains, r.task, tasks[r.task].chains)
        && AreParents(View(), born, r.task, r.parents)
    {
      if pendingTasks == [] {
        return None;
      }
      var t := pendingTasks[0];
      assert IsActive(tasks, t);
      pendingTasks := pendingTasks[1..];
      BaseMember(old(View()), t);
      var parents := CurrentParents(t, tasks[t].chains);
      PopInv(old(View()), limitedTasks, View());
      ParentsAre(View(), born, t);
      return Some(t, parents);
    }

    method CurrentParents(t: TaskId, ids: seq<ChainId>) returns (parents: seq<TaskId>)
      requires forall c :: c in ids ==> c in chains && Has(chains[c], t)
      ensures parents == ParentList(chains, t, ids)
    {
      parents := [];
      for k := 0 to |ids|
        invariant parents == ParentList(chains, t, ids[..k])
      {
        var chain := chains[ids[k]];
        var i := IndexOf(chain.nodes, t);
        if i > 0 {
          parents := parents + [chain.nodes[i - 1].task];
        }
        assert ids[..k + 1][..k] == ids[..k];
      }
      assert ids[..|ids|] == ids;
    }

    method FinishTask(t: TaskId) returns (ghost run: seq<TaskId>)
      requires Valid() && t in tasks && t !in pendingTasks && tasks[t].state != Pending
      modifies this
      ensures Valid()
      ensures LegalRun(Finished(old(View()), t), run) && View() == AfterRun(Finished(old(View()), t), run)
      ensures tasks.Keys == old(tasks.Keys) - {t} && forall x :: x in tasks ==> tasks[x].chains == old(tasks)[x].chains
      ensures born == old(born) && clock == old(clock)
    {
      ghost var s, finished := View(), Finished(View(), t);
      FinishedReady(s, limitedTasks, t, born);
      Withdraw(t);
      run := FlushTryStart();
      OrderSame(finished, View(), born);
    }

    /** Everything finish_task does before it flushes the tries. */
    method Withdraw(t: TaskId)
      requires Base(View()) && LimitedOK(View(), limitedTasks) && t in tasks && toStart == []
      modifies this`chains, this`limitedTasks, this`tasks, this`toStart
      ensures View() == Finished(old(View()), t)
      ensures limitedTasks == Without(old(limitedTasks), old(tasks)[t].chains)
      ensures toStart == WakeList(old(chains), old(limitedTasks), t, old(tasks)[t].chains)
                         + ChildList(old(chains), t, old(tasks)[t].chains)
    {
      InactivateTask(t, false);
      PushChildren(t);
      ChildListSame(old(chains), chains, t, tasks[t].chains);
      LeaveChains(t);
      tasks := map x | x in tasks && x != t :: tasks[x];
    }

    method PushChildren(t: TaskId)
      requires t in tasks && Member(View(), t)
      modifies this`toStart
      ensures toStart == old(toStart) + ChildList(chains, t, tasks[t].chains)
    {
      var ids := tasks[t].chains;
      for k := 0 to |ids|
        invariant toStart == old(toStart) + ChildList(chains, t, ids[..k])
      {
        var chain := chains[ids[k]];
        var i := IndexOf(chain.nodes, t);
        if i + 1 < |chain.nodes| {
          toStart := toStart + [chain.nodes[i + 1].task];
        }
        assert ids[..k + 1][..k] == ids[..k];
      }
      assert ids[..|ids|] == ids;
    }

    method LeaveChains(t: TaskId)
      requires t in tasks && Member(View(), t) && NoDup(tasks[t].chains)
      modifies this`chains
      ensures chains == Removed(old(View()), t).chains
    {
      var ids := tasks[t].chains;
      for k := 0 to |ids|
        invariant chains == map c | c in old(chains) && !(c in ids[..k] && |old(chains)[c].nodes| == 1) ::
          if c in ids[..k] then RemoveIn(old(chains)[c], t) else old(chains)[c]
      {
        assert ids[k] !in ids[..k];
        var chain := chains[ids[k]];
        var i := IndexOf(chain.nodes, t);
        chain := chain.(nodes := chain.nodes[..i] + chain.nodes[i + 1..]);
        if chain.nodes == [] {
          chains := map c | c in chains && c != ids[k] :: chains[c];
        } else {
          chains := chains[ids[k] := chain];
        }
        assert ids[..k + 1] == ids[..k] + [ids[k]];
      }
      assert ids[..|ids|] == ids;
    }

    method ResetTask(t: TaskId) returns (ghost run: seq<TaskId>)
      requires Valid() && t in tasks && t !in pendingTasks && tasks[t].state != Pending
      modifies this
      ensures Valid()
      ensures LegalRun(Failed(old(View()), t, Pending), run)
      ensures View() == AfterRun(Failed(old(View()), t, Pending), run)
      ensures SameChains(old(View()), View())
      ensures born == old(born) && clock == old(clock)
    {
      ghost var s, limited := View(), limitedTasks;
      FailedReady(s, limited, t, Pending, born);
      InactivateTask(t, true);
      toStart := toStart + [t];
      ghost var failed := View();
      assert failed == Failed(s, t, Pending);
      run := FlushTryStart();
      OrderSame(failed, View(), born);
    }

    method PauseTask(t: TaskId) returns (ghost run: seq<TaskId>)
      requires Valid() && t in tasks && t !in pendingTasks && tasks[t].state == Active
      modifies this
      ensures Valid()
      ensures LegalRun(Failed(old(View()), t, Paused), run)
      ensures View() == AfterRun(Failed(old(View()), t, Paused), run)
      ensures SameChains(old(View()), View()) && tasks[t].state == Paused
      ensures born == old(born) && clock == old(clock)
    {
      ghost var s, limited := View(), limitedTasks;
      FailedReady(s, limited, t, Paused, born);
      InactivateTask(t, true);
      tasks := tasks[t := tasks[t].(state := Paused)];
      ghost var failed := View();
      assert failed == Failed(s, t, Paused);
      run := FlushTryStart();
      OrderSame(failed, View(), born);
    }
  }
}
